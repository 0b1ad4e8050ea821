/** The weak rolling checksum of Sources/Quay/Other/Hashes.swift: rsync's two-part sum
    (a relative of the Adler-32 checksum of section 2.2 of RFC 1950) taken modulo 2^16, over
    a 65536-byte circular buffer addressed by the counters `head` and `tail`. The source's
    `UInt32` subtractions trap on underflow; here they are the explicit failure `Trap`. */
module Hashes {
  import opened Shared
  import opened Errors

  /** `_M`, the modulus of both components. */
  const M: nat := 0x1_0000
  /** `WeakRollingHash.bufferSize`. */
  const BufferSize: nat := 64 * 1024

  /** The state of a `WeakRollingHash`, as a value. */
  datatype RollState = RollState(beta1: int, beta2: int, head: nat, tail: nat, buffer: seq<byte>)

  /** What every reachable state satisfies: both components below 2^16, a full-size buffer,
      and at most a buffer's worth of bytes between `tail` and `head`. */
  predicate Inv(s: RollState)
  {
    0 <= s.beta1 < M && 0 <= s.beta2 < M && |s.buffer| == BufferSize && s.tail <= s.head <= s.tail + BufferSize
  }

  /** The state `init()` creates: zero sums, zero counters, a zeroed buffer. */
  function Initial(): (s: RollState)
    ensures Inv(s)
  {
    RollState(0, 0, 0, 0, seq(BufferSize, _ => 0))
  }

  /** `reset()`: sums and counters to zero, the buffer left as it is. */
  function ResetState(s: RollState): (r: RollState)
    requires Inv(s)
    ensures Inv(r) && r.beta1 == 0 && r.beta2 == 0 && r.head == 0 && r.tail == 0 && r.buffer == s.buffer
  {
    s.(beta1 := 0, beta2 := 0, head := 0, tail := 0)
  }

  /** `hash`: `beta1 + _M * beta2`; it fits 32 bits and splits back into the two components. */
  function HashOf(s: RollState): (h: int)
    requires Inv(s)
    ensures 0 <= h < 0x1_0000_0000
    ensures h % M == s.beta1 && h / M == s.beta2
  {
    s.beta1 + M * s.beta2
  }

  /** `update(withByte:)` as a state transition, statement for statement: the byte is stored
      first, the popped byte is then read (from the slot just written, when the window is
      full), and either subtraction underflowing its `UInt32` is a trap. */
  function Step(s: RollState, b: byte): (r: Result<RollState>)
    requires Inv(s)
    ensures r.Ok? ==> Inv(r.value)
    ensures r.Ok? ==> r.value.head == s.head + 1 && r.value.buffer == s.buffer[s.head % BufferSize := b]
    ensures r.Err? ==> r.failure == Trap
  {
    var buffer := s.buffer[s.head % BufferSize := b];
    var aPush := b as int;
    var aPop := if s.head - s.tail >= BufferSize then buffer[s.tail % BufferSize] as int else 0;
    if s.beta1 < aPop then Err(Trap)
    else
      var beta1 := (s.beta1 - aPop + aPush) % M;
      var popped := ((s.head - s.tail) * aPop) % M;
      if s.beta2 < popped then Err(Trap)
      else
        var beta2 := (s.beta2 - popped + beta1) % M;
        var head := s.head + 1;
        var tail := if head - s.tail > BufferSize then s.tail + 1 else s.tail;
        Ok(RollState(beta1, beta2, head, tail, buffer))
  }

  /** `update(withBytes:)`: the bytes fed one after the other; the first trap ends it. */
  function Feed(s: RollState, bytes: seq<byte>): (r: Result<RollState>)
    requires Inv(s)
    ensures r.Ok? ==> Inv(r.value) && r.value.head == s.head + |bytes|
    ensures r.Err? ==> r.failure == Trap
    decreases |bytes|
  {
    if bytes == [] then Ok(s)
    else
      var t :- Step(s, bytes[0]);
      Feed(t, bytes[1..])
  }

  /** `WeakRollingHash(block:).hash`, the hash of a fresh digest fed the block. */
  function ImmediateHash(block: seq<byte>): (r: Result<int>)
    ensures r.Ok? ==> 0 <= r.value < 0x1_0000_0000
  {
    var s :- Feed(Initial(), block);
    Ok(HashOf(s))
  }

  /** `WeakRollingHash`: the two sums, the counters and the circular buffer, updated in place. */
  class WeakRollingHash {
    var beta1: int
    var beta2: int
    var head: nat
    var tail: nat
    const buffer: array<byte>

    function State(): RollState
      reads this, buffer
    {
      RollState(beta1, beta2, head, tail, buffer[..])
    }

    ghost predicate Valid()
      reads this, buffer
    {
      buffer.Length == BufferSize && Inv(State())
    }

    /** `init()`. */
    constructor ()
      ensures Valid() && State() == Initial()
      ensures fresh(buffer)
    {
      beta1, beta2, head, tail := 0, 0, 0, 0;
      buffer := new byte[BufferSize](_ => 0);
      new;
      assert buffer[..] == seq(BufferSize, _ => 0);
    }

    /** `update(withByte:)`: the new hash, or a trap where a subtraction underflows. */
    method Update(b: byte) returns (r: Result<int>)
      requires Valid()
      modifies this, buffer
      ensures r.Ok? <==> Step(old(State()), b).Ok?
      ensures r.Ok? ==> Valid() && State() == Step(old(State()), b).value && r.value == HashOf(State())
    {
      buffer[head % buffer.Length] := b;
      var aPush := b as int;
      var aPop := if head - tail >= buffer.Length then buffer[tail % buffer.Length] as int else 0;
      if beta1 < aPop {
        return Err(Trap);
      }
      beta1 := (beta1 - aPop + aPush) % M;
      var popped := ((head - tail) * aPop) % M;
      if beta2 < popped {
        return Err(Trap);
      }
      beta2 := (beta2 - popped + beta1) % M;
      head := head + 1;
      if head - tail > buffer.Length {
        tail := tail + 1;
      }
      r := Ok(Hash());
    }

    /** `update(withBytes:)`: each byte in turn, the hashes returned along the way dropped. */
    method UpdateBytes(bytes: seq<byte>) returns (r: Outcome)
      requires Valid()
      modifies this, buffer
      ensures r.Pass? <==> Feed(old(State()), bytes).Ok?
      ensures r.Pass? ==> Valid() && State() == Feed(old(State()), bytes).value
    {
      for i := 0 to |bytes|
        invariant Valid()
        invariant Feed(State(), bytes[i..]) == Feed(old(State()), bytes)
      {
        assert bytes[i..][1..] == bytes[i + 1..];
        var h := Update(bytes[i]);
        if h.Err? {
          return Fail(Trap);
        }
      }
      return Pass;
    }

    /** `reset()`. */
    method Reset()
      requires Valid()
      modifies this
      ensures Valid() && State() == ResetState(old(State()))
    {
      beta1, beta2, head, tail := 0, 0, 0, 0;
    }

    /** `hash`. */
    function Hash(): (h: int)
      reads this, buffer
      requires Valid()
      ensures h == HashOf(State())
    {
      beta1 + M * beta2
    }
  }

  /** `WeakRollingHash(block:).hash` as the source computes it: a fresh digest fed the block. */
  method HashBlock(block: seq<byte>) returns (r: Result<int>)
    ensures r == ImmediateHash(block)
  {
    var digest := new WeakRollingHash();
    var fed := digest.UpdateBytes(block);
    if fed.Fail? {
      return Err(Trap);
    }
    return Ok(digest.Hash());
  }

  // ---------------------------------------------------------------------------
  // Properties

  /** The sum of the bytes. */
  function Sum(s: seq<byte>): nat
  {
    if s == [] then 0 else Sum(s[..|s| - 1]) + s[|s| - 1]
  }

  /** The sum of the prefix sums of the bytes. */
  function PrefixSums(s: seq<byte>): nat
  {
    if s == [] then 0 else PrefixSums(s[..|s| - 1]) + Sum(s)
  }

  /** While the window is not full nothing is popped: the byte is added to `beta1`, the new
      `beta1` to `beta2`, both modulo 2^16, and nothing can underflow. */
  lemma StepFilling(s: RollState, b: byte)
    requires Inv(s) && s.head - s.tail < BufferSize
    ensures Step(s, b) == Ok(RollState((s.beta1 + b) % M, (s.beta2 + (s.beta1 + b) % M) % M,
                                       s.head + 1, s.tail, s.buffer[s.head % BufferSize := b]))
  {
    assert ((s.head - s.tail) * 0) % M == 0;
    assert s.head + 1 - s.tail <= BufferSize;
  }

  /** Once the window is full, the popped byte is the byte just pushed, read back from the slot
      it was written to: the update traps exactly when that byte exceeds `beta1`, and otherwise
      leaves `beta1` as it was and adds it once more to `beta2`. */
  lemma StepFull(s: RollState, b: byte)
    requires Inv(s) && s.head - s.tail == BufferSize
    ensures Step(s, b).Err? <==> s.beta1 < b
    ensures Step(s, b).Ok? ==>
            Step(s, b).value == RollState(s.beta1, (s.beta2 + s.beta1) % M, s.head + 1, s.tail + 1,
                                          s.buffer[s.head % BufferSize := b])
  {
    assert s.tail % BufferSize == s.head % BufferSize;
    var buffer := s.buffer[s.head % BufferSize := b];
    assert buffer[s.tail % BufferSize] == b;
    FullWindowPopsNothing(b);
    assert ((s.head - s.tail) * (b as int)) % M == 0;
    if s.beta1 >= b {
      assert (s.beta1 - b + b) % M == s.beta1;
    }
  }

  /** A full window's worth of a byte is a multiple of the modulus. */
  lemma FullWindowPopsNothing(b: byte)
    ensures (BufferSize * (b as int)) % M == 0
  {
    assert BufferSize * (b as int) == M * (b as int);
  }

  /** Feeding the bytes `a + [b]` is feeding `a`, then updating with `b`. */
  lemma {:induction false} FeedSnoc(s: RollState, a: seq<byte>, b: byte)
    requires Inv(s)
    ensures Feed(s, a + [b]) == (match Feed(s, a) case Err(f) => Err(f) case Ok(t) => Step(t, b))
    decreases |a|
  {
    if a == [] {
      assert [b][1..] == [];
    } else {
      assert (a + [b])[1..] == a[1..] + [b];
      match Step(s, a[0])
      case Err(_) =>
      case Ok(t) => FeedSnoc(t, a[1..], b);
    }
  }

  lemma ModAdd(x: int, y: int)
    ensures (x % M + y) % M == (x + y) % M
  {
  }

  /** The sums of `a + [b]`, modulo 2^16, from those of `a`. */
  lemma SumsSnoc(a: seq<byte>, b: byte)
    ensures (Sum(a) % M + b) % M == Sum(a + [b]) % M
    ensures (PrefixSums(a) % M + Sum(a + [b]) % M) % M == PrefixSums(a + [b]) % M
  {
    var block := a + [b];
    assert block[..|block| - 1] == a;
    assert Sum(block) == Sum(a) + b;
    assert PrefixSums(block) == PrefixSums(a) + Sum(block);
    ModAdd(Sum(a), b);
    ModAdd(PrefixSums(a), Sum(block) % M);
    ModAdd(Sum(block), PrefixSums(a));
  }

  /** Writing the next byte into a buffer whose start holds the bytes so far. */
  lemma FillSlot(buffer: seq<byte>, a: seq<byte>, b: byte)
    requires |buffer| == BufferSize && |a| < BufferSize
    ensures (a + buffer[|a|..])[|a| % BufferSize := b] == (a + [b]) + buffer[|a| + 1..]
  {
    assert |a| % BufferSize == |a|;
  }

  /** For at most 65536 bytes fed from a freshly reset state, nothing traps, `beta1` is the sum
      of the bytes and `beta2` the sum of their prefix sums, both modulo 2^16, and the bytes
      occupy the start of the buffer. */
  lemma {:induction false} FeedClosedForm(s: RollState, block: seq<byte>)
    requires Inv(s) && s.beta1 == 0 && s.beta2 == 0 && s.head == 0 && s.tail == 0
    requires |block| <= BufferSize
    ensures Feed(s, block) == Ok(RollState(Sum(block) % M, PrefixSums(block) % M, |block|, 0,
                                           block + s.buffer[|block|..]))
    decreases |block|
  {
    if block != [] {
      var a, b := block[..|block| - 1], block[|block| - 1];
      assert block == a + [b];
      FeedClosedForm(s, a);
      FeedSnoc(s, a, b);
      var t := RollState(Sum(a) % M, PrefixSums(a) % M, |a|, 0, a + s.buffer[|a|..]);
      StepFilling(t, b);
      SumsSnoc(a, b);
      FillSlot(s.buffer, a, b);
    } else {
      assert block + s.buffer[|block|..] == s.buffer;
      assert Sum(block) == 0 && PrefixSums(block) == 0;
      assert s == RollState(0, 0, 0, 0, s.buffer);
    }
  }

  /** The hash of a block of at most 65536 bytes, in closed form: its low half is the sum of
      the bytes and its high half the sum of their prefix sums, both modulo 2^16. */
  lemma ImmediateHashClosedForm(block: seq<byte>)
    requires |block| <= BufferSize
    ensures ImmediateHash(block).Ok?
    ensures ImmediateHash(block).value % M == Sum(block) % M
    ensures ImmediateHash(block).value / M == PrefixSums(block) % M
  {
    FeedClosedForm(Initial(), block);
  }

  /** `reset()` followed by feeding a block gives the block's immediate hash, whatever the
      buffer held, as long as the block fits the window. */
  lemma ResetThenFeed(s: RollState, block: seq<byte>)
    requires Inv(s) && |block| <= BufferSize
    ensures Feed(ResetState(s), block).Ok? && ImmediateHash(block).Ok?
    ensures HashOf(Feed(ResetState(s), block).value) == ImmediateHash(block).value
  {
    var r0 := ResetState(s);
    FeedClosedForm(r0, block);
    FeedClosedForm(Initial(), block);
    var r, t := Feed(r0, block).value, Feed(Initial(), block).value;
    assert r.beta1 == t.beta1 && r.beta2 == t.beta2;
    assert HashOf(r) == HashOf(t);
  }

  function Ones(n: nat): (s: seq<byte>)
    ensures |s| == n && forall i :: 0 <= i < n ==> s[i] == 1
  {
    seq(n, _ => 1)
  }

  lemma {:induction false} SumOnes(n: nat)
    ensures Sum(Ones(n)) == n
  {
    if n > 0 {
      assert Ones(n)[..n - 1] == Ones(n - 1);
      SumOnes(n - 1);
    }
  }

  /** The hash of 65537 bytes of 0x01 traps: after 65536 of them `beta1` is 65536 mod 2^16 = 0,
      and the next update pops the byte it has just pushed, so `beta1 - aPop` underflows. */
  lemma OnesTrap()
    ensures ImmediateHash(Ones(BufferSize + 1)).Err?
  {
    var a := Ones(BufferSize);
    assert Ones(BufferSize + 1) == a + [1];
    FeedClosedForm(Initial(), a);
    SumOnes(BufferSize);
    FeedSnoc(Initial(), a, 1);
    var t := Feed(Initial(), a).value;
    StepFull(t, 1);
  }
}

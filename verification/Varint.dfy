/**
Base 128 varints on 64 bits, as the gRPC codec reads and writes them: seven bits a byte,
the low ones first, the top bit set on every byte but the last.
*/
module Varint {
  import opened Common

  const U32: nat := 0x1_0000_0000
  const U64: nat := 0x1_0000_0000_0000_0000

  const TOP_BIT: nat := 0x8000_0000_0000_0000

  type int32 = v: int | -0x8000_0000 <= v < 0x8000_0000

  /** `value as i64 as u64`. */
  function SignExtended(value: int32): (v: nat)
    ensures v < U64
  {
    if value < 0 then value + U64 else value
  }

  /** `v as i32` for a `u64`: its low 32 bits, read as two's complement. */
  function LowBits(v: nat): int32 {
    var low := v % U32;
    if low < 0x8000_0000 then low else low - U32
  }

  /** Both keep the number modulo their width; with the type's range that fixes the result. */
  lemma {:induction false} CastsAreCongruent(value: int32, v: nat)
    ensures (SignExtended(value) - value) % U64 == 0
    ensures (LowBits(v) - v) % U32 == 0
  {
    var low, q := v % U32, v / U32;
    assert v == q * U32 + low;
    if low < 0x8000_0000 {
      IsMultiple(LowBits(v) - v, -q);
    } else {
      IsMultiple(LowBits(v) - v, -q - 1);
    }
  }

  lemma {:induction false} IsMultiple(x: int, q: int)
    requires x == q * U32
    ensures x % U32 == 0
  {
  }

  lemma {:induction false} LowBitsUndoExtension(value: int32)
    ensures LowBits(SignExtended(value)) == value
  {
    if value < 0 {
      var low := value + U32;
      assert SignExtended(value) == low + 0xFFFF_FFFF * U32;
      assert SignExtended(value) % U32 == low;
    }
  }

  // ---------------------------------------------------------------------------
  // Bits
  // ---------------------------------------------------------------------------

  function Pow2(k: nat): (p: nat)
    ensures p > 0
  {
    if k == 0 then 1 else 2 * Pow2(k - 1)
  }

  /** Bitwise or. */
  function Or(a: nat, b: nat): nat {
    if a == 0 && b == 0 then 0
    else (if a % 2 == 1 || b % 2 == 1 then 1 else 0) + 2 * Or(a / 2, b / 2)
  }

  lemma {:induction false} OrZero(b: nat)
    ensures Or(0, b) == b
  {
    if b != 0 { OrZero(b / 2); }
  }

  /** Or-ing in bits above all those set is addition. */
  lemma {:induction false} OrAbove(a: nat, m: nat, k: nat)
    requires a < Pow2(k)
    ensures Or(a, m * Pow2(k)) == a + m * Pow2(k)
  {
    if k == 0 {
      OrZero(m);
    } else {
      var half := m * Pow2(k - 1);
      assert m * Pow2(k) == 2 * half;
      OrAbove(a / 2, m, k - 1);
    }
  }

  lemma {:induction false} Pow2Seven(k: nat)
    ensures Pow2(k + 7) == 128 * Pow2(k)
  {
    assert Pow2(k + 7) == 2 * Pow2(k + 6) == 4 * Pow2(k + 5) == 8 * Pow2(k + 4);
    assert Pow2(k + 4) == 2 * Pow2(k + 3) == 4 * Pow2(k + 2) == 8 * Pow2(k + 1);
  }

  lemma {:induction false} Pow2Of28()
    ensures Pow2(7) == 128 && Pow2(28) == 0x1000_0000
  {
    Pow2Seven(0);
    Pow2Seven(7);
    Pow2Seven(14);
    Pow2Seven(21);
  }

  lemma {:induction false} Pow2Of63()
    ensures Pow2(63) == TOP_BIT
  {
    Pow2Of28();
    Pow2Seven(28);
    Pow2Seven(35);
    Pow2Seven(42);
    Pow2Seven(49);
    Pow2Seven(56);
  }

  lemma {:induction false} Pow2Monotone(j: nat, k: nat)
    requires j <= k
    ensures Pow2(j) <= Pow2(k)
  {
    if j < k { Pow2Monotone(j, k - 1); }
  }

  // ---------------------------------------------------------------------------
  // The value of a byte string
  // ---------------------------------------------------------------------------

  function Base128(bytes: seq<byte>): nat {
    if bytes == [] then 0 else bytes[0] % 128 + 128 * Base128(bytes[1..])
  }

  lemma {:induction false} Base128Snoc(bytes: seq<byte>, b: byte)
    ensures Base128(bytes + [b]) == Base128(bytes) + (b % 128) * Pow2(7 * |bytes|)
    ensures Base128(bytes) < Pow2(7 * |bytes|)
  {
    if bytes == [] {
      assert [b][1..] == [];
    } else {
      assert (bytes + [b])[1..] == bytes[1..] + [b];
      Base128Snoc(bytes[1..], b);
      Pow2Seven(7 * (|bytes| - 1));
      assert 128 * ((b % 128) * Pow2(7 * (|bytes| - 1))) == (b % 128) * Pow2(7 * |bytes|);
    }
  }

  /** Continuation bytes at the front. */
  function Continuations(input: seq<byte>): (n: nat)
    ensures n <= |input|
    ensures forall i :: 0 <= i < n ==> input[i] >= 128
    ensures n < |input| ==> input[n] < 128
  {
    if input == [] || input[0] < 128 then 0 else 1 + Continuations(input[1..])
  }

  /** Ten bytes at most, every one but the last marked as continued. */
  predicate IsVarint(bytes: seq<byte>) {
    && 1 <= |bytes| <= 10
    && bytes[|bytes| - 1] < 128
    && forall i :: 0 <= i < |bytes| - 1 ==> bytes[i] >= 128
  }

  /** What `read_varint` returns: the value modulo 2^64 of the varint in front, and what follows it. */
  function ReadVarint(input: seq<byte>): (r: Option<(nat, seq<byte>)>)
    ensures r.Some? ==> |r.value.1| < |input| && r.value.0 < U64
  {
    var n := Continuations(input);
    if n < |input| && n < 10 then Some((Base128(input[..n + 1]) % U64, input[n + 1..])) else None
  }

  /** There is a value exactly when a varint is in front, and it is that varint's. */
  lemma {:induction false} ReadsExactlyVarints(input: seq<byte>, n: nat)
    requires n <= |input|
    ensures IsVarint(input[..n]) ==> ReadVarint(input) == Some((Base128(input[..n]) % U64, input[n..]))
    ensures ReadVarint(input).Some? ==> IsVarint(input[..|input| - |ReadVarint(input).value.1|])
  {
    var c := Continuations(input);
    if IsVarint(input[..n]) {
      assert forall i :: 0 <= i < n ==> input[..n][i] == input[i];
      assert c == n - 1;
    }
  }

  lemma {:induction false} Wraps(x: nat, q: nat)
    requires x < U64
    ensures (x + q * U64) % U64 == x
  {
  }

  lemma {:induction false} ShiftFits(low: nat, p: nat)
    requires low < 128 && 128 * p < U64
    ensures low * p < U64 && (low * p) % U64 == low * p
  {
    assert low * p <= 128 * p;
    Wraps(low * p, 0);
  }

  /** Shifted to the top bit, only the lowest of the seven bits stays. */
  lemma {:induction false} ShiftOut(low: nat)
    ensures (low * TOP_BIT) % U64 == (low % 2) * TOP_BIT
  {
    Wraps((low % 2) * TOP_BIT, low / 2);
  }

  /** One more of the first nine bytes. */
  lemma {:induction false} FoldLow(before: nat, low: nat, i: nat)
    requires low < 128 && i < 9 && before < Pow2(7 * i)
    ensures Or(before, (low * Pow2(7 * i)) % U64) == before + low * Pow2(7 * i)
  {
    Pow2Of63();
    Pow2Monotone(7 * i + 7, 63);
    Pow2Seven(7 * i);
    ShiftFits(low, Pow2(7 * i));
    OrAbove(before, low, 7 * i);
  }

  /** The tenth byte. */
  lemma {:induction false} FoldTop(before: nat, low: nat)
    requires before < TOP_BIT
    ensures Or(before, (low * TOP_BIT) % U64) == (before + low * TOP_BIT) % U64
  {
    var m := low % 2;
    ShiftOut(low);
    assert Or(before, m * TOP_BIT) == before + m * TOP_BIT by {
      Pow2Of63();
      OrAbove(before, m, 63);
    }
    assert (before + low * TOP_BIT) % U64 == before + m * TOP_BIT by {
      Wraps(before + m * TOP_BIT, low / 2);
      assert low * TOP_BIT == m * TOP_BIT + (low / 2) * U64;
    }
  }

  /** Folding one more byte in, as the loop does, keeps the value so far modulo 2^64. */
  lemma {:induction false} FoldByte(input: seq<byte>, i: nat)
    requires i < |input| && i < 10
    ensures Or(Base128(input[..i]), ((input[i] % 128) * Pow2(7 * i)) % U64) == Base128(input[..i + 1]) % U64
    ensures i < 9 ==> Base128(input[..i + 1]) % U64 == Base128(input[..i + 1])
  {
    assert input[..i + 1] == input[..i] + [input[i]];
    Base128Snoc(input[..i], input[i]);
    if i < 9 {
      FoldLow(Base128(input[..i]), input[i] % 128, i);
      FitsNine(input[..i + 1]);
    } else {
      Pow2Of63();
      FoldTop(Base128(input[..i]), input[i] % 128);
    }
  }

  lemma {:induction false} FitsNine(bytes: seq<byte>)
    requires |bytes| <= 9
    ensures Base128(bytes) % U64 == Base128(bytes)
  {
    Base128Snoc(bytes, 0);
    Pow2Of63();
    Pow2Monotone(7 * |bytes|, 63);
    Wraps(Base128(bytes), 0);
  }

  /** The source's loop over `result` and `shift`. */
  method ReadVarintLoop(input: seq<byte>) returns (r: Option<(nat, seq<byte>)>)
    ensures r == ReadVarint(input)
  {
    var result, shift := 0, 0;
    for i := 0 to |input|
      invariant i < 10 && shift == 7 * i
      invariant i <= Continuations(input)
      invariant result == Base128(input[..i])
    {
      var b := input[i];
      FoldByte(input, i);
      result := Or(result, ((b % 128) * Pow2(shift)) % U64);
      if b < 128 {
        return Some((result, input[i + 1..]));
      }
      shift := shift + 7;
      if shift >= 64 {
        return None;
      }
    }
    return None;
  }

  // ---------------------------------------------------------------------------
  // Writing
  // ---------------------------------------------------------------------------

  function WriteVarint(v: nat): seq<byte> {
    if v < 128 then [v] else [v % 128 + 128] + WriteVarint(v / 128)
  }

  /** The source's loop, appending to `buf`. */
  method WriteVarintI32(buf: seq<byte>, value: int32) returns (r: seq<byte>)
    ensures r == buf + WriteVarint(SignExtended(value))
  {
    var v := SignExtended(value);
    r := buf;
    while true
      invariant r + WriteVarint(v) == buf + WriteVarint(SignExtended(value))
      decreases v
    {
      var b: byte := v % 128;
      ghost var before := v;
      v := v / 128;
      if v == 0 {
        return r + [b];
      }
      ContinuedByte(b);
      assert r + [b + 128] + WriteVarint(v) == r + WriteVarint(before);
      r := r + [Or(b, 128)];
    }
  }

  /** Or-ing the continuation bit into seven bits adds it. */
  lemma {:induction false} ContinuedByte(b: nat)
    requires b < 128
    ensures Or(b, 128) == b + 128
  {
    OrAbove(b, 1, 7);
    Pow2Seven(0);
  }

  /** A written value is a run of continued bytes that adds up to it. */
  lemma {:induction false} WrittenIs(v: nat)
    ensures WriteVarint(v) != [] && Base128(WriteVarint(v)) == v
    ensures WriteVarint(v)[|WriteVarint(v)| - 1] < 128
    ensures forall i :: 0 <= i < |WriteVarint(v)| - 1 ==> WriteVarint(v)[i] >= 128
  {
    if v < 128 {
      assert Base128([v][1..]) == 0;
    } else {
      WrittenIs(v / 128);
      assert WriteVarint(v)[1..] == WriteVarint(v / 128);
    }
  }

  /** It takes a byte for each seven bits. */
  lemma {:induction false} WrittenLength(v: nat, k: nat)
    requires v < Pow2(7 * k + 7)
    ensures 1 <= |WriteVarint(v)| <= k + 1
    ensures v >= Pow2(7 * k) && k > 0 ==> |WriteVarint(v)| == k + 1
  {
    Pow2Seven(7 * k);
    if k > 0 {
      Pow2Seven(7 * (k - 1));
    }
    if v >= 128 {
      assert k > 0;
      WrittenLength(v / 128, k - 1);
    }
  }

  lemma {:induction false} WrittenLengthU64(v: nat)
    requires v < U64
    ensures |WriteVarint(v)| <= 10
  {
    Pow2Of63();
    Pow2Seven(63);
    WrittenLength(v, 9);
  }

  /** Any `u64` is written as a varint that reads back as itself, before any tail. */
  lemma {:induction false} WrittenReadsBack(v: nat, tail: seq<byte>)
    requires v < U64
    ensures IsVarint(WriteVarint(v)) && Base128(WriteVarint(v)) == v
    ensures ReadVarint(WriteVarint(v) + tail) == Some((v, tail))
  {
    var w := WriteVarint(v);
    WrittenIs(v);
    WrittenLengthU64(v);
    assert (w + tail)[..|w|] == w && (w + tail)[|w|..] == tail;
    ReadsExactlyVarints(w + tail, |w|);
  }

  lemma {:induction false} Int32Length(value: int32)
    ensures value >= 0 ==> 1 <= |WriteVarint(SignExtended(value))| <= 5
    ensures value < 0 ==> |WriteVarint(SignExtended(value))| == 10
  {
    if value >= 0 {
      Pow2Of28();
      Pow2Seven(28);
      WrittenLength(SignExtended(value), 4);
    } else {
      Pow2Of63();
      Pow2Seven(63);
      WrittenLength(SignExtended(value), 9);
    }
  }

  /**
  For every `i32` and every tail: reading what was written gives back the value and exactly
  the tail; a non-negative value takes one to five bytes, a negative one exactly ten.
  */
  lemma {:induction false} VarintRoundTrip(value: int32, tail: seq<byte>)
    ensures ReadVarint(WriteVarint(SignExtended(value)) + tail) == Some((SignExtended(value), tail))
    ensures LowBits(SignExtended(value)) == value
    ensures value >= 0 ==> 1 <= |WriteVarint(SignExtended(value))| <= 5
    ensures value < 0 ==> |WriteVarint(SignExtended(value))| == 10
  {
    LowBitsUndoExtension(value);
    WrittenReadsBack(SignExtended(value), tail);
    Int32Length(value);
  }
}

/** LEB128 numbers as in section 5.2.2 of the WebAssembly Core Specification. The
    value of an encoding is defined on its bytes; the reader and the encoders are
    proved against it. */
module Leb {
  import opened Wrappers

  type Byte = x: nat | x < 256

  type Bytes = seq<Byte>

  const LIMIT_U32: nat := 0x1_0000_0000

  predicate More(b: Byte) { b >= 128 }

  function Payload(b: Byte): nat { b % 128 }

  function SignedPayload(b: Byte): int {
    if Payload(b) >= 64 then Payload(b) - 128 else Payload(b)
  }

  /** All bytes but the last ask for more. */
  ghost predicate LebForm(e: Bytes) {
    |e| > 0 && !More(e[|e| - 1]) && forall i :: 0 <= i < |e| - 1 ==> More(e[i])
  }

  function Unsigned(e: Bytes): nat {
    if e == [] then 0 else Payload(e[0]) + 128 * Unsigned(e[1..])
  }

  function Signed(e: Bytes): int
    requires e != []
  {
    if |e| == 1 then SignedPayload(e[0]) else Payload(e[0]) + 128 * Signed(e[1..])
  }

  function Pow2(n: nat): (r: nat)
    ensures r > 0
  {
    if n == 0 then 1 else 2 * Pow2(n - 1)
  }

  ghost predicate FitsSigned(v: int, n: nat)
    requires n > 0
  {
    0 <= v + Pow2(n - 1) && v < Pow2(n - 1)
  }

  /** The encodings the specification allows for unsigned 32-bit numbers. */
  ghost predicate EncodesU32(e: Bytes) {
    LebForm(e) && |e| <= 5 && Unsigned(e) < LIMIT_U32
  }

  /** The encodings it allows for signed numbers of `n` bits. */
  ghost predicate EncodesSigned(e: Bytes, n: nat)
    requires n > 0
  {
    LebForm(e) && |e| <= (n + 6) / 7 && FitsSigned(Signed(e), n)
  }

  // ---- Finding the end of a number ----

  /** The length of the LEB number in front, or zero if there is none within `max` bytes. */
  function LebLength(bs: Bytes, max: nat): (n: nat)
    ensures n <= |bs| && n <= max
    decreases max
  {
    if max == 0 || bs == [] then 0
    else if !More(bs[0]) then 1
    else
      var rest := LebLength(bs[1..], max - 1);
      if rest == 0 then 0 else rest + 1
  }

  lemma {:induction false} LebLengthIsForm(bs: Bytes, max: nat)
    requires LebLength(bs, max) > 0
    ensures LebForm(bs[..LebLength(bs, max)])
    decreases max
  {
    var n := LebLength(bs, max);
    if More(bs[0]) {
      LebLengthIsForm(bs[1..], max - 1);
      var rest := bs[1..][..n - 1];
      assert bs[..n] == [bs[0]] + rest;
    }
  }

  lemma {:induction false} LebLengthOf(e: Bytes, tail: Bytes, max: nat)
    requires LebForm(e) && |e| <= max
    ensures LebLength(e + tail, max) == |e|
    decreases max
  {
    if |e| > 1 {
      assert More(e[0]);
      LebLengthOf(e[1..], tail, max - 1);
      assert (e + tail)[1..] == e[1..] + tail;
    }
  }

  // ---- Values ----

  function Scale(i: nat): (r: nat)
    ensures r > 0
  {
    if i == 0 then 1 else 128 * Scale(i - 1)
  }

  lemma {:induction false} UnsignedAppend(e: Bytes, b: Byte)
    ensures Unsigned(e + [b]) == Unsigned(e) + Payload(b) * Scale(|e|)
    decreases |e|
  {
    if e == [] {
      assert (e + [b])[1..] == [];
    } else {
      assert (e + [b])[1..] == e[1..] + [b];
      UnsignedAppend(e[1..], b);
      Distribute(Payload(b), Scale(|e| - 1));
    }
  }

  lemma Distribute(p: nat, s: nat)
    ensures 128 * (p * s) == p * (128 * s)
  {
  }

  lemma {:induction false} UnsignedBound(e: Bytes)
    ensures Unsigned(e) < Scale(|e|)
    decreases |e|
  {
    if e != [] {
      UnsignedBound(e[1..]);
    }
  }

  /** In the last byte a 32-bit number may use four bits. */
  lemma LastByteU32(e: Bytes, b: Byte)
    requires |e| == 4
    ensures Unsigned(e + [b]) < LIMIT_U32 <==> Payload(b) < 16
  {
    UnsignedAppend(e, b);
    UnsignedBound(e);
    assert Scale(4) == 268_435_456 by {
      assert Scale(1) == 128 && Scale(2) == 16_384;
      assert Scale(3) == 2_097_152;
    }
  }

  lemma ShortU32(e: Bytes)
    requires |e| <= 4
    ensures Unsigned(e) < LIMIT_U32
  {
    UnsignedBound(e);
    assert Scale(2) == 16_384;
    assert Scale(3) == 2_097_152;
    assert Scale(4) == 268_435_456;
  }

  // ---- Signed ranges ----

  lemma {:induction false} Pow2Seven(n: nat)
    ensures Pow2(n + 7) == 128 * Pow2(n)
  {
    assert Pow2(n + 2) == 4 * Pow2(n);
    assert Pow2(n + 4) == 16 * Pow2(n);
    assert Pow2(n + 6) == 64 * Pow2(n);
  }

  lemma {:induction false} Pow2Grows(a: nat, b: nat)
    requires a <= b
    ensures Pow2(a) <= Pow2(b)
    decreases b
  {
    if a < b {
      Pow2Grows(a, b - 1);
    }
  }

  /** The whole number fits exactly when its last byte fits the bits left for it. */
  lemma {:induction false} FitsByLastByte(e: Bytes, k: nat)
    requires e != [] && k > 0
    ensures FitsSigned(Signed(e), 7 * (|e| - 1) + k) <==> FitsSigned(SignedPayload(e[|e| - 1]), k)
    decreases |e|
  {
    if |e| > 1 {
      FitsByLastByte(e[1..], k);
      Pow2Seven(7 * (|e| - 2) + k - 1);
      assert e[1..][|e| - 2] == e[|e| - 1];
    }
  }

  /** What is written in at most six bits fewer than a full byte needs no check. */
  lemma ShortFits(e: Bytes, n: nat)
    requires e != [] && 7 * |e| <= n
    ensures FitsSigned(Signed(e), n)
  {
    FitsByLastByte(e, 7);
    assert Pow2(2) == 4;
    assert Pow2(4) == 16;
    assert Pow2(6) == 64;
    Pow2Grows(7 * |e| - 1, n - 1);
  }

  /** The bit test on the last byte: bits above the sign repeat it. */
  predicate SignExtended(payload: nat, usedBits: nat)
    requires payload < 128 && 1 <= usedBits <= 7
  {
    var high := payload / Pow2(usedBits);
    if (payload / Pow2(usedBits - 1)) % 2 == 0 then high == 0 else high == Pow2(7 - usedBits) - 1
  }

  lemma SignExtendedFits(b: Byte, k: nat)
    requires 1 <= k <= 7
    ensures SignExtended(Payload(b), k) <==> FitsSigned(SignedPayload(b), k)
  {
    hide Pow2;
    SmallPowers();
    var p := Payload(b);
    if k == 1 {
      assert SignExtended(p, 1) <==> p == 0 || p == 127;
    } else if k == 2 {
      assert SignExtended(p, 2) <==> p < 2 || p >= 126;
    } else if k == 3 {
      assert SignExtended(p, 3) <==> p < 4 || p >= 124;
    } else if k == 4 {
      assert SignExtended(p, 4) <==> p < 8 || p >= 120;
    } else if k == 5 {
      assert SignExtended(p, 5) <==> p < 16 || p >= 112;
    } else if k == 6 {
      assert SignExtended(p, 6) <==> p < 32 || p >= 96;
    }
  }

  lemma SmallPowers()
    ensures Pow2(0) == 1 && Pow2(1) == 2 && Pow2(2) == 4 && Pow2(3) == 8
    ensures Pow2(4) == 16 && Pow2(5) == 32 && Pow2(6) == 64 && Pow2(7) == 128
  {
    assert Pow2(2) == 4;
    assert Pow2(4) == 16;
    assert Pow2(6) == 64;
  }

  // ---- What a reader takes from the front ----

  /** The length of the allowed unsigned 32-bit number in front, or zero. */
  ghost function TakeU32(bs: Bytes): (n: nat)
    ensures n <= |bs|
  {
    var n := LebLength(bs, 5);
    if n > 0 && Unsigned(bs[..n]) < LIMIT_U32 then n else 0
  }

  ghost function TakeSigned(bs: Bytes, bits: nat): (n: nat)
    requires bits > 0
    ensures n <= |bs|
  {
    var n := LebLength(bs, (bits + 6) / 7);
    if n > 0 && FitsSigned(Signed(bs[..n]), bits) then n else 0
  }

  /** Exactly the allowed encodings are taken, and nothing of what follows. */
  lemma TakeU32Exact(bs: Bytes)
    ensures TakeU32(bs) > 0 ==> EncodesU32(bs[..TakeU32(bs)])
    ensures forall e :: EncodesU32(e) && e <= bs ==> TakeU32(bs) == |e|
  {
    if TakeU32(bs) > 0 {
      LebLengthIsForm(bs, 5);
    }
    forall e | EncodesU32(e) && e <= bs
      ensures TakeU32(bs) == |e|
    {
      LebLengthOf(e, bs[|e|..], 5);
      assert bs == e + bs[|e|..] && bs[..|e|] == e;
    }
  }

  lemma TakeSignedExact(bs: Bytes, bits: nat)
    requires bits > 0
    ensures TakeSigned(bs, bits) > 0 ==> EncodesSigned(bs[..TakeSigned(bs, bits)], bits)
    ensures forall e :: EncodesSigned(e, bits) && e <= bs ==> TakeSigned(bs, bits) == |e|
  {
    if TakeSigned(bs, bits) > 0 {
      LebLengthIsForm(bs, (bits + 6) / 7);
    }
    forall e | EncodesSigned(e, bits) && e <= bs
      ensures TakeSigned(bs, bits) == |e|
    {
      LebLengthOf(e, bs[|e|..], (bits + 6) / 7);
      assert bs == e + bs[|e|..] && bs[..|e|] == e;
    }
  }

  // ---- Following a number byte by byte ----

  /** While every byte asks for more, the number has not ended yet. */
  lemma {:induction false} StillOpen(bs: Bytes, k: nat, max: nat)
    requires k <= |bs| && k <= max && forall i :: 0 <= i < k ==> More(bs[i])
    ensures LebLength(bs, max) == 0 || LebLength(bs, max) > k
    ensures k == |bs| || k == max ==> LebLength(bs, max) == 0
    ensures k < |bs| && k < max && !More(bs[k]) ==> LebLength(bs, max) == k + 1
    decreases k
  {
    if k > 0 {
      StillOpen(bs[1..], k - 1, max - 1);
    }
  }

  class Reader {
    const data: Bytes
    var offset: nat

    ghost predicate Valid()
      reads this
    {
      offset <= |data|
    }

    ghost function Rest(): Bytes
      reads this
      requires Valid()
    {
      data[offset..]
    }

    constructor (data: Bytes)
      ensures Valid() && this.data == data && offset == 0
    {
      this.data, offset := data, 0;
    }

    method ReadByte() returns (r: Option<Byte>)
      requires Valid()
      modifies this
      ensures Valid()
      ensures r.None? <==> old(offset) == |data|
      ensures r.None? ==> offset == old(offset)
      ensures r.Some? ==> offset == old(offset) + 1 && r.value == data[old(offset)]
    {
      if offset >= |data| {
        return None;
      }
      r := Some(data[offset]);
      offset := offset + 1;
    }

    method ReadBytes(length: nat) returns (ok: bool)
      requires Valid()
      modifies this
      ensures Valid() && (ok <==> length <= |old(Rest())|)
      ensures offset == if ok then old(offset) + length else old(offset)
    {
      if offset + length > |data| {
        return false;
      }
      offset := offset + length;
      ok := true;
    }

    /** Reads exactly the allowed encodings of unsigned 32-bit numbers. */
    method ReadU32() returns (r: Option<nat>)
      requires Valid()
      modifies this
      ensures Valid() && offset >= old(offset)
      ensures r.Some? <==> TakeU32(old(Rest())) > 0
      ensures r.Some? ==>
                offset == old(offset) + TakeU32(old(Rest())) && r.value == Unsigned(old(Rest())[..TakeU32(old(Rest()))])
    {
      ghost var bs, start := Rest(), offset;
      var result := 0;
      var i := 0;
      while i < 5
        invariant 0 <= i <= 5 && offset == start + i <= |data| && |bs| == |data| - start && bs == data[start..]
        invariant forall j :: 0 <= j < i ==> More(bs[j])
        invariant result == Unsigned(bs[..i])
      {
        StillOpen(bs, i, 5);
        var b := ReadByte();
        if b.None? {
          return None;
        }
        assert b.value == bs[i];
        assert bs[..i + 1] == bs[..i] + [bs[i]];
        if i == 4 && b.value >= 16 {
          LastByteU32(bs[..4], b.value);
          if More(b.value) {
            StillOpen(bs, 5, 5);
          }
          return None;
        }
        UnsignedAppend(bs[..i], b.value);
        result := result + Payload(b.value) * Scale(i);
        if !More(b.value) {
          if i == 4 {
            LastByteU32(bs[..4], b.value);
          } else {
            ShortU32(bs[..i + 1]);
          }
          return Some(result);
        }
        i := i + 1;
      }
      StillOpen(bs, 5, 5);
      r := None;
    }

    /** Skips exactly the allowed encodings of signed numbers of `bits` bits. */
    method ReadSigned(bits: nat) returns (ok: bool)
      requires Valid() && bits > 0
      modifies this
      ensures Valid() && offset >= old(offset)
      ensures ok <==> TakeSigned(old(Rest()), bits) > 0
      ensures ok ==> offset == old(offset) + TakeSigned(old(Rest()), bits)
    {
      ghost var bs, start := Rest(), offset;
      var maximum := (bits + 6) / 7;
      var i := 0;
      while i < maximum
        invariant 0 <= i <= maximum && offset == start + i <= |data| && |bs| == |data| - start && bs == data[start..]
        invariant forall j :: 0 <= j < i ==> More(bs[j])
      {
        StillOpen(bs, i, maximum);
        var b := ReadByte();
        if b.None? {
          return false;
        }
        if !More(b.value) {
          ghost var e := bs[..i + 1];
          if i == maximum - 1 {
            var usedBits := bits - i * 7;
            FitsByLastByte(e, usedBits);
            SignExtendedFits(b.value, usedBits);
            if !SignExtended(Payload(b.value), usedBits) {
              return false;
            }
          } else {
            ShortFits(e, bits);
          }
          return true;
        }
        i := i + 1;
      }
      StillOpen(bs, maximum, maximum);
      ok := false;
    }
  }

  // ---- The encoders ----

  /** `out` are the low digits of `value`, and `rest` is what they leave. */
  ghost predicate Left(value: int, out: Bytes, rest: int) {
    value == Unsigned(out) + rest * Scale(|out|)
  }

  lemma LeftStart(value: int)
    ensures Left(value, [], value)
  {
  }

  lemma LeftStep(value: int, out: Bytes, rest: int)
    requires Left(value, out, rest)
    ensures Left(value, out + [rest % 128 + 128], rest / 128)
  {
    UnsignedAppend(out, rest % 128 + 128);
    SplitDigit(rest, Scale(|out|));
  }

  lemma LeftDone(value: int, out: Bytes, b: Byte)
    ensures Left(value, out, b) && b < 128 ==> Unsigned(out + [b]) == value
    ensures Left(value, out, SignedPayload(b)) ==> Signed(out + [b]) == value
  {
    UnsignedAppend(out, b);
    SignedAppend(out, b);
  }

  /** The shortest encoding of an unsigned 32-bit number. */
  method EncodeU32(value: nat) returns (out: Bytes)
    requires value < LIMIT_U32
    ensures EncodesU32(out) && Unsigned(out) == value
  {
    hide Left, Unsigned;
    out := [];
    var rest: nat := value;
    LeftStart(value);
    while true
      invariant |out| <= 4 && Left(value, out, rest)
      invariant forall i :: 0 <= i < |out| ==> More(out[i])
      invariant rest < Limit(|out|)
      decreases rest
    {
      var b: Byte := rest % 128;
      var next := rest / 128;
      if next == 0 {
        LeftDone(value, out, b);
        out := out + [b];
        return;
      }
      LeftStep(value, out, rest);
      out := out + [b + 128];
      rest := next;
    }
  }

  /** What is left to encode after `k` bytes. */
  function Limit(k: nat): nat {
    if k == 0 then LIMIT_U32 else if k == 1 then 33_554_432 else if k == 2 then 262_144 else if k == 3 then 2_048
      else 16
  }

  lemma SplitDigit(x: int, s: nat)
    ensures x * s == (x % 128) * s + (x / 128) * (128 * s)
  {
    assert x == (x % 128) + 128 * (x / 128);
    assert (128 * (x / 128)) * s == (x / 128) * (128 * s);
  }

  lemma {:induction false} SignedAppend(e: Bytes, b: Byte)
    ensures Signed(e + [b]) == Unsigned(e) + SignedPayload(b) * Scale(|e|)
    decreases |e|
  {
    if e == [] {
      assert (e + [b])[0] == b;
    } else {
      assert (e + [b])[1..] == e[1..] + [b];
      SignedAppend(e[1..], b);
      assert 128 * (SignedPayload(b) * Scale(|e| - 1)) == SignedPayload(b) * (128 * Scale(|e| - 1));
    }
  }

  lemma Int32Range(v: int)
    ensures FitsSigned(v, 32) <==> -0x8000_0000 <= v < 0x8000_0000
  {
    SmallPowers();
    Pow2Seven(3);
    Pow2Seven(10);
    Pow2Seven(17);
    Pow2Seven(24);
  }

  /** The shortest encoding of a signed 32-bit number, with arithmetic shifts. */
  method EncodeI32(value: int) returns (out: Bytes)
    requires -0x8000_0000 <= value < 0x8000_0000
    ensures EncodesSigned(out, 32) && Signed(out) == value
  {
    hide Left, Unsigned, Signed, FitsSigned;
    out := [];
    var rest := value;
    LeftStart(value);
    Int32Range(value);
    while true
      invariant |out| <= 4 && Left(value, out, rest)
      invariant forall i :: 0 <= i < |out| ==> More(out[i])
      invariant 0 <= 2 * rest + Limit(|out|) && 2 * rest < Limit(|out|)
      decreases if rest < 0 then -rest else rest
    {
      var b: Byte := rest % 128;
      var next := rest / 128;
      var done := (next == 0 && b < 64) || (next == -1 && b >= 64);
      if done {
        assert SignedPayload(b) == rest;
        LeftDone(value, out, b);
        out := out + [b];
        return;
      }
      LeftStep(value, out, rest);
      out := out + [b + 128];
      rest := next;
    }
  }

  /** Reading undoes encoding, whatever follows. */
  lemma ReadUndoesEncode(e: Bytes, tail: Bytes)
    requires EncodesU32(e)
    ensures TakeU32(e + tail) == |e| && Unsigned((e + tail)[..|e|]) == Unsigned(e)
  {
    TakeU32Exact(e + tail);
    assert e <= e + tail;
    assert (e + tail)[..|e|] == e;
  }
}

/** QUIC variable-length integers (section 16 of RFC 9000), as the `octets` buffers read and write them. */
module Varint {
  import opened Common

  const MAX_VARINT := 0x3fff_ffff_ffff_ffff

  /** Big-endian bytes, `n` of them. */
  function BE(v: nat, n: nat): (b: bytes)
    ensures |b| == n
  {
    if n == 0 then [] else BE(v / 256, n - 1) + [v % 256]
  }

  function Value(b: bytes): nat {
    if b == [] then 0 else Value(b[..|b| - 1]) * 256 + b[|b| - 1]
  }

  /** As `Value`, with the two top bits of the first byte cleared. */
  function Masked(b: bytes): nat {
    if b == [] then 0
    else if |b| == 1 then b[0] % 64
    else Masked(b[..|b| - 1]) * 256 + b[|b| - 1]
  }

  function VarintLen(v: nat): nat {
    if v < 64 then 1 else if v < 16384 then 2 else if v < 1_073_741_824 then 4 else 8
  }

  /** Length announced by the two top bits of the first byte. */
  function ParseLen(first: byte): nat {
    match first / 64 case 0 => 1 case 1 => 2 case 2 => 4 case _ => 8
  }

  /** The two top bits that announce a length. */
  function LenBits(n: nat): byte {
    match n case 1 => 0 case 2 => 0x40 case 4 => 0x80 case _ => 0xC0
  }

  /** Big-endian in `VarintLen` bytes, then the length bits set in the first one. */
  function PutVarint(v: nat): (b: bytes)
    requires v <= MAX_VARINT
    ensures |b| == VarintLen(v)
  {
    var n := VarintLen(v);
    TopBitsAreFree(v);
    [BE(v, n)[0] + LenBits(n)] + BE(v, n)[1..]
  }

  /** The value at the front of a buffer and the bytes it occupies, or `None` when the buffer is too short. */
  function GetVarint(b: bytes): (r: Option<(nat, nat)>)
    ensures r.Some? ==> 1 <= r.value.1 <= |b|
  {
    if b == [] || ParseLen(b[0]) > |b| then None
    else Some((Masked(b[..ParseLen(b[0])]), ParseLen(b[0])))
  }

  /** Bytes taken in from the left, in network byte order, behind a number already read. */
  function Horner(v: nat, b: bytes): nat
    decreases |b|
  {
    if b == [] then v else Horner(v * 256 + b[0], b[1..])
  }

  lemma {:induction false} HornerSnoc(v: nat, b: bytes)
    requires b != []
    ensures Horner(v, b) == Horner(v, b[..|b| - 1]) * 256 + b[|b| - 1]
    decreases |b|
  {
    if |b| > 1 {
      HornerSnoc(v * 256 + b[0], b[1..]);
      assert b[1..][..|b| - 2] == b[..|b| - 1][1..];
    }
  }

  lemma {:induction false} MaskedFromTheLeft(b: bytes, n: nat)
    requires 1 <= n <= |b|
    ensures Masked(b[..n]) == Horner(b[0] % 64, b[1..n])
  {
    if n > 1 {
      MaskedFromTheLeft(b, n - 1);
      HornerSnoc(b[0] % 64, b[1..n]);
      assert b[..n][..n - 1] == b[..n - 1] && b[1..n][..n - 2] == b[1..n - 1];
    }
  }

  /**
  What is read is what section 16 of RFC 9000 says: the two top bits of the first
  byte give the length, one, two, four or eight, and the rest is the value in
  network byte order.
  */
  lemma ReadingFollowsTheStandard(b: bytes)
    ensures GetVarint(b) ==
            if b == [] then None
            else if b[0] < 0x40 then Some((b[0], 1))
            else if b[0] < 0x80 then if |b| < 2 then None else Some((Horner(b[0] - 0x40, b[1..2]), 2))
            else if b[0] < 0xC0 then if |b| < 4 then None else Some((Horner(b[0] - 0x80, b[1..4]), 4))
            else if |b| < 8 then None else Some((Horner(b[0] - 0xC0, b[1..8]), 8))
  {
    if b != [] && ParseLen(b[0]) <= |b| {
      MaskedFromTheLeft(b, ParseLen(b[0]));
    }
  }

  lemma {:induction false} HornerIsZero(v: nat, b: bytes)
    ensures Horner(v, b) == 0 <==> v == 0 && forall i :: 0 <= i < |b| ==> b[i] == 0
    decreases |b|
  {
    if b != [] {
      HornerIsZero(v * 256 + b[0], b[1..]);
      assert forall i :: 0 < i < |b| ==> b[i] == b[1..][i - 1];
    }
  }

  /** Zero is read exactly from bytes that are zero but for the length bits. */
  lemma ZeroIsRead(b: bytes)
    requires GetVarint(b).Some?
    ensures var (v, n) := GetVarint(b).value;
            v == 0 <==> b[0] % 64 == 0 && forall i :: 1 <= i < n ==> b[i] == 0
  {
    var n := ParseLen(b[0]);
    MaskedFromTheLeft(b, n);
    HornerIsZero(b[0] % 64, b[1..n]);
    assert forall i :: 1 <= i < n ==> b[i] == b[1..n][i - 1];
  }

  function Pow256(n: nat): nat { if n == 0 then 1 else 256 * Pow256(n - 1) }

  lemma {:induction false} BEValue(x: nat, n: nat)
    requires x < Pow256(n)
    ensures Value(BE(x, n)) == x
  {
    if n > 0 {
      BEValue(x / 256, n - 1);
      assert BE(x, n)[..n - 1] == BE(x / 256, n - 1);
    }
  }

  /** The first byte is small when the value is. */
  lemma {:induction false} BETop(x: nat, n: nat)
    requires n > 0 && x < 64 * Pow256(n - 1)
    ensures BE(x, n)[0] < 64
  {
    if n > 1 {
      BETop(x / 256, n - 1);
    }
  }

  lemma TopBitsAreFree(v: nat)
    requires v <= MAX_VARINT
    ensures v < 64 * Pow256(VarintLen(v) - 1) && BE(v, VarintLen(v))[0] < 64
  {
    assert Pow256(0) == 1 && Pow256(1) == 0x100 && Pow256(2) == 0x1_0000 && Pow256(3) == 0x100_0000;
    assert Pow256(7) == 0x100_0000_0000_0000 by {
      assert Pow256(4) == 256 * Pow256(3) && Pow256(5) == 256 * Pow256(4) && Pow256(6) == 256 * Pow256(5);
    }
    BETop(v, VarintLen(v));
  }

  /** Setting top bits that were clear changes nothing once they are masked off. */
  lemma {:induction false} MaskUndoesTag(b: bytes, t: byte)
    requires b != [] && b[0] < 64 && t in {0, 0x40, 0x80, 0xC0}
    ensures Masked([b[0] + t] + b[1..]) == Value(b)
  {
    var c := [b[0] + t] + b[1..];
    if |b| > 1 {
      var m := |b| - 1;
      MaskUndoesTag(b[..m], t);
      assert c[..m] == [b[0] + t] + b[..m][1..];
    }
  }

  /** Reading back what was written, with anything behind it. */
  lemma VarintRoundTrip(v: nat, rest: bytes)
    requires v <= MAX_VARINT
    ensures GetVarint(PutVarint(v) + rest) == Some((v, VarintLen(v)))
  {
    var n := VarintLen(v);
    TagIsRead(v);
    TopBitsAreFree(v);
    BEValue(v, n);
    MaskUndoesTag(BE(v, n), LenBits(n));
    assert (PutVarint(v) + rest)[0] == PutVarint(v)[0];
    assert (PutVarint(v) + rest)[..n] == PutVarint(v);
  }

  lemma TagIsRead(v: nat)
    requires v <= MAX_VARINT
    ensures ParseLen(PutVarint(v)[0]) == VarintLen(v)
  {
    TopBitsAreFree(v);
  }

  /** More bytes behind a readable integer do not change it. */
  lemma VarintIsStable(b: bytes, more: bytes)
    requires GetVarint(b).Some?
    ensures GetVarint(b + more) == GetVarint(b)
  {
    var n := ParseLen(b[0]);
    assert (b + more)[..n] == b[..n];
  }

  /** The bytes are exactly one integer of this value. */
  predicate Reads(b: bytes, v: nat) { GetVarint(b) == Some((v, |b|)) }

  lemma VarintAlone(b: bytes)
    requires GetVarint(b).Some?
    ensures var (v, n) := GetVarint(b).value; Reads(b[..n], v)
  {
    var n := ParseLen(b[0]);
    assert b[..n][..n] == b[..n];
  }

  lemma {:induction false} MaskedBound(b: bytes)
    requires b != []
    ensures Masked(b) < 64 * Pow256(|b| - 1)
  {
    if |b| > 1 {
      MaskedBound(b[..|b| - 1]);
    }
  }

  /** What is read is a legal varint value, and no encoding of it is shorter than the one written. */
  lemma VarintIsMinimal(b: bytes)
    requires GetVarint(b).Some?
    ensures var (v, n) := GetVarint(b).value; v <= MAX_VARINT && VarintLen(v) <= n <= |b|
  {
    var n := ParseLen(b[0]);
    MaskedBound(b[..n]);
    assert Pow256(0) == 1 && Pow256(1) == 0x100 && Pow256(2) == 0x1_0000 && Pow256(3) == 0x100_0000;
    assert Pow256(7) == 0x100_0000_0000_0000 by {
      assert Pow256(4) == 256 * Pow256(3) && Pow256(5) == 256 * Pow256(4) && Pow256(6) == 256 * Pow256(5);
    }
  }
}

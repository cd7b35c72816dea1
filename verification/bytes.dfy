/** Byte-level arithmetic used by the MIDI-to-serial bridge: splitting a MIDI
    status byte into its command and channel nibbles, and splitting a period
    value into the high and low bytes written to the serial line.

    The program uses Python's bitwise `&` and `>>` on non-negative integers.
    They are defined here bit by bit, as the language defines them, and each
    is then characterised by the division or remainder it amounts to. */
module Bytes {

  /** A value that fits in one byte, as delivered by the MIDI input and as
      accepted by `chr` before it is written to the serial line. */
  type byte = x: int | 0 <= x < 256

  function Pow2(k: nat): (p: nat)
    ensures p > 0
  {
    if k == 0 then 1 else 2 * Pow2(k - 1)
  }

  /** `a & b` on non-negative integers: bit `i` of the result is set exactly
      when bit `i` is set in both `a` and `b`. */
  function BitAnd(a: nat, b: nat): (r: nat)
    ensures r <= a && r <= b
  {
    if a == 0 || b == 0 then 0
    else 2 * BitAnd(a / 2, b / 2) + (if a % 2 == 1 && b % 2 == 1 then 1 else 0)
  }

  /** `a >> k` on non-negative integers: drops the `k` least significant
      bits. */
  function ShiftRight(a: nat, k: nat): nat
  {
    if k == 0 then a else ShiftRight(a / 2, k - 1)
  }

  /** Quotient and remainder are the only pair that rebuilds `x`. */
  lemma DivModUnique(x: nat, d: nat, q: nat, r: nat)
    requires d > 0 && x == d * q + r && r < d
    ensures x / d == q && x % d == r
  {
    var q', r' := x / d, x % d;
    assert d * q' + r' == d * q + r;
    if q' < q {
      assert d * q - d * q' == d * (q - q');
      MultiplyAtLeast(d, q - q');
    } else if q' > q {
      assert d * q' - d * q == d * (q' - q);
      MultiplyAtLeast(d, q' - q);
    }
  }

  lemma MultiplyAtLeast(d: nat, n: nat)
    requires n >= 1
    ensures d * n >= d
  {
  }

  /** Halving and then dividing by `p` is dividing by `2 * p`; halving and
      then taking the remainder by `p` is taking the remainder by `2 * p`
      and dropping the last bit. */
  lemma OfHalf(x: nat, p: nat)
    requires p > 0
    ensures (x / 2) / p == x / (2 * p)
    ensures x % (2 * p) == 2 * ((x / 2) % p) + x % 2
  {
    var q, r := x / 2, x % 2;
    var a, b := q / p, q % p;
    assert x == 2 * p * a + (2 * b + r);
    DivModUnique(x, 2 * p, a, 2 * b + r);
  }

  /** Masking with `k` one-bits keeps the remainder by `2 ** k`. */
  lemma {:induction false} MaskLowBits(x: nat, k: nat)
    ensures BitAnd(x, Pow2(k) - 1) == x % Pow2(k)
    decreases k
  {
    if k == 0 {
      assert BitAnd(x, 0) == 0;
    } else {
      var p := Pow2(k - 1);
      var m := Pow2(k) - 1;
      assert m == 2 * (p - 1) + 1;
      AndOddMask(x, m);
      assert m / 2 == p - 1;
      MaskLowBits(x / 2, k - 1);
      OfHalf(x, p);
    }
  }

  /** Shifting right by `k` bits is floor division by `2 ** k`. */
  lemma {:induction false} ShiftDivides(x: nat, k: nat)
    ensures ShiftRight(x, k) == x / Pow2(k)
    decreases k
  {
    if k > 0 {
      ShiftDivides(x / 2, k - 1);
      OfHalf(x, Pow2(k - 1));
    }
  }

  /** A mask whose lowest bit is set keeps the low bit of `a`. */
  lemma AndOddMask(a: nat, b: nat)
    requires b % 2 == 1
    ensures BitAnd(a, b) == 2 * BitAnd(a / 2, b / 2) + a % 2
  {
  }

  /** A mask whose lowest bit is clear keeps no low bit of `a`. */
  lemma AndEvenMask(a: nat, b: nat)
    requires b % 2 == 0
    ensures BitAnd(a, b) == 2 * BitAnd(a / 2, b / 2)
  {
  }

  /** `x & 0xf0` is the low nibble of `x / 16`, moved back into place. */
  lemma HighNibbleMask(x: nat)
    ensures BitAnd(x, 0xf0) == 16 * BitAnd(x / 16, 0x0f)
  {
    AndEvenMask(x, 0xf0);
    AndEvenMask(x / 2, 0x78);
    AndEvenMask(x / 4, 0x3c);
    AndEvenMask(x / 8, 0x1e);
    assert x / 2 / 2 == x / 4 && x / 4 / 2 == x / 8 && x / 8 / 2 == x / 16;
  }

  /** `x & 0xf0` clears the low nibble of a byte. */
  lemma MaskHighNibble(x: byte)
    ensures BitAnd(x, 0xf0) == 16 * (x / 16)
  {
    var h := x / 16;
    HighNibbleMask(x);
    assert Pow2(4) == 16;
    MaskLowBits(h, 4);
    assert h % 16 == h;
  }

  /** The channel of a status byte: its low nibble, `status & 0x0f`. */
  function Channel(status: byte): (c: nat)
    ensures c < 16
    ensures c == status % 16
  {
    MaskLowBits(status, 4);
    BitAnd(status, 0x0f)
  }

  /** The command of a status byte: its high nibble kept in place,
      `status & 0xf0`. */
  function Command(status: byte): (k: nat)
    ensures k < 256 && k % 16 == 0
    ensures k + Channel(status) == status
  {
    MaskHighNibble(status);
    BitAnd(status, 0xf0)
  }

  /** The split is a bijection: every command nibble paired with every
      channel is the split of exactly one status byte. */
  lemma CommandChannelJoin(k: nat, c: nat)
    requires k < 256 && k % 16 == 0 && c < 16
    ensures Command(k + c) == k && Channel(k + c) == c
  {
    DivModUnique(k + c, 16, k / 16, c);
  }

  /** Two status bytes with the same command and channel are equal. */
  lemma StatusDeterminedBySplit(s: byte, t: byte)
    requires Command(s) == Command(t) && Channel(s) == Channel(t)
    ensures s == t
  {
  }

  /** `x >> 8`: the value with its low byte dropped. */
  function HighByte(x: nat): (hi: nat)
    ensures hi == x / 256
  {
    ShiftDivides(x, 8);
    ShiftRight(x, 8)
  }

  /** `x & 0xff`: the low byte of the value. */
  function LowByte(x: nat): (lo: byte)
    ensures lo == x % 256
  {
    MaskLowBits(x, 8);
    BitAnd(x, 0xff)
  }

  /** Reassembling a high and a low byte into the value they encode. */
  function JoinBytes(hi: nat, lo: byte): nat
  {
    hi * 256 + lo
  }

  /** Splitting then joining gives back the value. */
  lemma SplitJoin(x: nat)
    ensures JoinBytes(HighByte(x), LowByte(x)) == x
  {
  }

  /** The split is the only (high, low) pair with a low part below 256 that
      joins to the value. */
  lemma SplitUnique(x: nat, hi: nat, lo: byte)
    ensures JoinBytes(hi, lo) == x <==> hi == HighByte(x) && lo == LowByte(x)
  {
    if JoinBytes(hi, lo) == x {
      DivModUnique(x, 256, hi, lo);
    }
  }

  /** Joining then splitting gives back both bytes. */
  lemma JoinSplit(hi: nat, lo: byte)
    ensures HighByte(JoinBytes(hi, lo)) == hi
    ensures LowByte(JoinBytes(hi, lo)) == lo
  {
    DivModUnique(JoinBytes(hi, lo), 256, hi, lo);
  }
}

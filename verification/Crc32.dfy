/** CRC-32 as section 8 of RFC 1952 defines it: a reflected polynomial, complemented on the way
    in and on the way out. Its algebra needs only that complementing twice is the identity, so
    the fold is written over any register; `Spec` is the register of the standard. */
module Crc32 {
  import opened Chunks

  /** A register of type `R`: how one byte enters it, and the complement at both ends. */
  datatype Register<!R> = Register(step: (R, Byte) -> R, flip: R -> R, start: R)

  ghost predicate Valid<R(!new)>(g: Register<R>) {
    forall r :: g.flip(g.flip(r)) == r
  }

  function Fold<R>(g: Register<R>, r: R, data: seq<Byte>): R {
    if data == [] then r else g.step(Fold(g, r, data[..|data| - 1]), data[|data| - 1])
  }

  /** Continue a finished checksum with more data. */
  function Update<R>(g: Register<R>, crc: R, data: seq<Byte>): R {
    g.flip(Fold(g, g.flip(crc), data))
  }

  /** The checksum of a whole byte string. */
  function Crc<R>(g: Register<R>, data: seq<Byte>): R {
    Update(g, g.start, data)
  }

  /** The checksum as a function of the data alone. */
  function SumOf<R>(g: Register<R>): seq<Byte> -> R {
    data => Crc(g, data)
  }

  lemma {:induction false} FoldConcat<R>(g: Register<R>, r: R, a: seq<Byte>, b: seq<Byte>)
    ensures Fold(g, r, a + b) == Fold(g, Fold(g, r, a), b)
  {
    if b == [] {
      assert a + b == a;
    } else {
      FoldConcat(g, r, a, b[..|b| - 1]);
      assert (a + b)[..|a + b| - 1] == a + b[..|b| - 1];
    }
  }

  /** Block-wise updates give the checksum of the concatenation. */
  lemma {:induction false} Chaining<R(!new)>(g: Register<R>, crc: R, a: seq<Byte>, b: seq<Byte>)
    requires Valid(g)
    ensures Update(g, Update(g, crc, a), b) == Update(g, crc, a + b)
  {
    FoldConcat(g, g.flip(crc), a, b);
  }

  function ShiftBit(r: bv32): bv32 {
    if r & 1 == 1 then (r >> 1) ^ 0xEDB8_8320 else r >> 1
  }

  function ShiftByte(r: bv32, b: Byte): bv32 {
    ShiftBit(ShiftBit(ShiftBit(ShiftBit(ShiftBit(ShiftBit(ShiftBit(ShiftBit(r ^ (b as bv32)))))))))
  }

  const Spec: Register<bv32> := Register(ShiftByte, r => r ^ 0xFFFF_FFFF, 0)

  lemma SpecIsValid()
    ensures Valid(Spec)
  {}

  const DIGITS: seq<Byte> := [0x31, 0x32, 0x33, 0x34, 0x35, 0x36, 0x37, 0x38, 0x39]

  /** The register after each of the digits '1' to '9'. */
  const REGISTERS: seq<bv32> := [0xFFFF_FFFF, 0x7C23_1048, 0xB0AC_BB32, 0x77B7_9C2D, 0x641C_1F5C, 0x340A_C5E3,
    0xF68D_2C9E, 0xAFFC_9660, 0x651F_2550, 0x340B_C6D9]

  lemma ShiftDigits()
    ensures ShiftByte(0xFFFF_FFFF, 0x31) == 0x7C23_1048
    ensures ShiftByte(0x7C23_1048, 0x32) == 0xB0AC_BB32
    ensures ShiftByte(0xB0AC_BB32, 0x33) == 0x77B7_9C2D
    ensures ShiftByte(0x77B7_9C2D, 0x34) == 0x641C_1F5C
    ensures ShiftByte(0x641C_1F5C, 0x35) == 0x340A_C5E3
    ensures ShiftByte(0x340A_C5E3, 0x36) == 0xF68D_2C9E
    ensures ShiftByte(0xF68D_2C9E, 0x37) == 0xAFFC_9660
    ensures ShiftByte(0xAFFC_9660, 0x38) == 0x651F_2550
    ensures ShiftByte(0x651F_2550, 0x39) == 0x340B_C6D9
  {}

  lemma ShiftDigit(i: nat)
    requires i < 9
    ensures ShiftByte(REGISTERS[i], DIGITS[i]) == REGISTERS[i + 1]
  {
    ShiftDigits();
  }

  lemma FoldOneMore(r: bv32, data: seq<Byte>, n: nat)
    requires n < |data|
    ensures Fold(Spec, r, data[..n + 1]) == ShiftByte(Fold(Spec, r, data[..n]), data[n])
  {
    assert data[..n + 1][..n] == data[..n];
  }

  lemma {:induction false} FoldDigits(n: nat)
    requires n <= 9
    ensures Fold(Spec, 0xFFFF_FFFF, DIGITS[..n]) == REGISTERS[n]
  {
    if n > 0 {
      FoldDigits(n - 1);
      FoldOneMore(0xFFFF_FFFF, DIGITS, n - 1);
      ShiftDigit(n - 1);
    }
  }

  /** The standard's check value: the checksum of "123456789" is 0xCBF43926. */
  lemma CanonicalTestVector()
    ensures Crc(Spec, DIGITS) == 0xCBF4_3926
  {
    FoldDigits(9);
    assert DIGITS[..9] == DIGITS;
  }
}

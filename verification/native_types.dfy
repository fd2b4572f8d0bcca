/** The fixed-width integer types of the Win32 structures and of C `int`.
    Every store of a Lua integer into one of them truncates; each `To…`
    function is that truncation (two's complement, as on the Windows
    compilers), characterised by congruence and by being the identity on
    its own range. */
module NativeTypes {

  type Word = x: int | 0 <= x < 0x1_0000
  type Short = x: int | -0x8000 <= x < 0x8000
  type DWord = x: int | 0 <= x < 0x1_0000_0000
  type Int32 = x: int | -0x8000_0000 <= x < 0x8000_0000
  type Byte = x: int | 0 <= x < 0x100
  /** CHAR: a signed byte on the Windows compilers. */
  type Char = x: int | -0x80 <= x < 0x80

  /** Store into a WORD. */
  function ToWord(x: int): (r: Word)
    ensures (x - r) % 0x1_0000 == 0
    ensures 0 <= x < 0x1_0000 ==> r == x
  {
    x % 0x1_0000
  }

  /** Store into a SHORT. */
  function ToShort(x: int): (r: Short)
    ensures (x - r) % 0x1_0000 == 0
    ensures -0x8000 <= x < 0x8000 ==> r == x
  {
    (x + 0x8000) % 0x1_0000 - 0x8000
  }

  /** Store into a DWORD. */
  function ToDWord(x: int): (r: DWord)
    ensures (x - r) % 0x1_0000_0000 == 0
    ensures 0 <= x < 0x1_0000_0000 ==> r == x
  {
    x % 0x1_0000_0000
  }

  /** Store into a C `int`. */
  function ToInt32(x: int): (r: Int32)
    ensures (x - r) % 0x1_0000_0000 == 0
    ensures -0x8000_0000 <= x < 0x8000_0000 ==> r == x
  {
    (x + 0x8000_0000) % 0x1_0000_0000 - 0x8000_0000
  }

  /** The low byte of `x`, as an unsigned value. */
  function ToByte(x: int): (r: Byte)
    ensures (x - r) % 0x100 == 0
    ensures 0 <= x < 0x100 ==> r == x
  {
    x % 0x100
  }

  /** Store into a CHAR: only the low byte survives, read back signed. */
  function ToChar(x: int): (r: Char)
    ensures (x - r) % 0x100 == 0
    ensures -0x80 <= x < 0x80 ==> r == x
  {
    (x + 0x80) % 0x100 - 0x80
  }

  lemma ShiftMod8(a: int, k: int)
    ensures (a + 0x100 * k) % 0x100 == a % 0x100
  {
  }

  lemma ShiftMod16(a: int, k: int)
    ensures (a + 0x1_0000 * k) % 0x1_0000 == a % 0x1_0000
  {
  }

  lemma ShiftMod32(a: int, k: int)
    ensures (a + 0x1_0000_0000 * k) % 0x1_0000_0000 == a % 0x1_0000_0000
  {
  }

  /** Going through a C `int` first changes nothing about a narrower store:
      the binding reads every field into an `int` before it stores it. */
  lemma NarrowThroughInt32(x: int)
    ensures ToWord(ToInt32(x)) == ToWord(x)
    ensures ToShort(ToInt32(x)) == ToShort(x)
    ensures ToDWord(ToInt32(x)) == ToDWord(x)
    ensures ToChar(ToInt32(x)) == ToChar(x)
  {
    var q := (x + 0x8000_0000) / 0x1_0000_0000;
    var y := ToInt32(x);
    assert y == x + 0x1_0000_0000 * -q;
    ShiftMod32(x, -q);
    assert y == x + 0x1_0000 * (-0x1_0000 * q);
    ShiftMod16(x, -0x1_0000 * q);
    ShiftMod16(x + 0x8000, -0x1_0000 * q);
    assert y == x + 0x100 * (-0x100_0000 * q);
    ShiftMod8(x + 0x80, -0x100_0000 * q);
  }

  // ---- Bitwise OR of 32-bit patterns, on their unsigned values ----

  function Pow2(k: nat): (r: nat)
    ensures r > 0
  {
    if k == 0 then 1 else 2 * Pow2(k - 1)
  }

  lemma Pow2Of32()
    ensures Pow2(32) == 0x1_0000_0000
  {
    assert Pow2(8) == 0x100;
    assert Pow2(16) == 0x1_0000;
    assert Pow2(24) == 0x100_0000;
  }

  /** Bitwise OR of two naturals, lowest bit first. */
  function OrNat(a: nat, b: nat): nat
    decreases a + b
  {
    if a == 0 then b
    else if b == 0 then a
    else 2 * OrNat(a / 2, b / 2) + (if a % 2 == 1 || b % 2 == 1 then 1 else 0)
  }

  lemma OrNatZero(a: nat)
    ensures OrNat(a, 0) == a && OrNat(0, a) == a
  {
  }

  lemma OrNatHalves(a: nat, b: nat)
    ensures OrNat(a, b) / 2 == OrNat(a / 2, b / 2)
    ensures OrNat(a, b) % 2 == (if a % 2 == 1 || b % 2 == 1 then 1 else 0)
  {
    if a != 0 && b == 0 {
      OrNatZero(a / 2);
    }
  }

  /** OR keeps a number of bits: operands below 2^k give a result below 2^k. */
  lemma {:induction false} OrNatBound(a: nat, b: nat, k: nat)
    requires a < Pow2(k) && b < Pow2(k)
    ensures OrNat(a, b) < Pow2(k)
  {
    if k > 0 && a != 0 && b != 0 {
      OrNatBound(a / 2, b / 2, k - 1);
    }
  }

  lemma {:induction false} OrNatAssociative(a: nat, b: nat, c: nat)
    ensures OrNat(OrNat(a, b), c) == OrNat(a, OrNat(b, c))
    decreases a + b + c
  {
    if a == 0 || b == 0 || c == 0 {
      OrNatZero(a);
      OrNatZero(OrNat(a, b));
    } else {
      OrNatHalves(a, b);
      OrNatHalves(b, c);
      OrNatAssociative(a / 2, b / 2, c / 2);
      OrNatHalves(OrNat(a, b), c);
      OrNatHalves(a, OrNat(b, c));
    }
  }

  lemma {:induction false} OrNatCommutative(a: nat, b: nat)
    ensures OrNat(a, b) == OrNat(b, a)
    decreases a + b
  {
    if a != 0 && b != 0 {
      OrNatCommutative(a / 2, b / 2);
    }
  }

  /** `a | b` on two 32-bit patterns. */
  function BitOr(a: DWord, b: DWord): DWord
  {
    Pow2Of32();
    OrNatBound(a, b, 32);
    OrNat(a, b)
  }

  /** The OR laws the flag fold relies on: 0 is neutral, and neither grouping
      nor order matters. */
  lemma BitOrLaws(a: DWord, b: DWord, c: DWord)
    ensures BitOr(a, 0) == a && BitOr(0, a) == a
    ensures BitOr(BitOr(a, b), c) == BitOr(a, BitOr(b, c))
    ensures BitOr(a, b) == BitOr(b, a)
  {
    OrNatZero(a);
    OrNatAssociative(a, b, c);
    OrNatCommutative(a, b);
  }
}

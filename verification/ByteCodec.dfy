/** The little-endian byte codecs of the shared-memory clock. */
module ByteCodec {

  type Byte = x: int | 0 <= x < 256

  /** `value >> (8 * i)` of an unsigned value. */
  function ShiftRight(value: nat, i: nat): nat {
    if i == 0 then value else ShiftRight(value / 256, i - 1)
  }

  /** `byte << (8 * i)`. */
  function ShiftLeft(b: nat, i: nat): nat {
    if i == 0 then b else 256 * ShiftLeft(b, i - 1)
  }

  /** How many values i bytes can take. */
  function Range(i: nat): nat {
    ShiftLeft(1, i)
  }

  /** The n low bytes of a value, lowest first. */
  function ToBytes(value: nat, n: nat): (s: seq<Byte>)
    ensures |s| == n
  {
    if n == 0 then [] else [value % 256] + ToBytes(value / 256, n - 1)
  }

  /** The value of a sequence of bytes, lowest first. */
  function FromBytes(s: seq<Byte>): nat {
    if s == [] then 0 else s[0] + 256 * FromBytes(s[1..])
  }

  lemma {:induction false} ToBytesAt(value: nat, n: nat, i: nat)
    requires i < n
    ensures ToBytes(value, n)[i] == ShiftRight(value, i) % 256
  {
    if i > 0 {
      ToBytesAt(value / 256, n - 1, i - 1);
    }
  }

  /** A value that fits n bytes survives being stored and read back. */
  lemma {:induction false} RoundTrip(value: nat, n: nat)
    requires value < Range(n)
    ensures FromBytes(ToBytes(value, n)) == value
  {
    if n > 0 {
      RoundTrip(value / 256, n - 1);
    }
  }

  /** Bitwise or, from the lowest bit up. */
  function BitOr(a: nat, b: nat): nat {
    if a == 0 && b == 0 then 0 else (if a % 2 == 1 || b % 2 == 1 then 1 else 0) + 2 * BitOr(a / 2, b / 2)
  }

  lemma {:induction false} OrWithZero(b: nat)
    ensures BitOr(0, b) == b
  {
    if b > 0 {
      OrWithZero(b / 2);
    }
  }

  lemma OrWithEven(a: nat, b: nat)
    ensures BitOr(a, 2 * b) == a % 2 + 2 * BitOr(a / 2, b)
  {
  }

  lemma OrAbovePair(a: nat, b: nat)
    ensures BitOr(a, 4 * b) == a % 4 + 4 * BitOr(a / 4, b)
  {
    OrWithEven(a, 2 * b);
    OrWithEven(a / 2, b);
    assert a / 2 / 2 == a / 4;
  }

  lemma OrAboveNibble(a: nat, b: nat)
    ensures BitOr(a, 16 * b) == a % 16 + 16 * BitOr(a / 16, b)
  {
    OrAbovePair(a, 4 * b);
    OrAbovePair(a / 4, b);
    assert a / 4 / 4 == a / 16;
  }

  /** The eight low bits of a value stay when something is or-ed in above them. */
  lemma OrAboveByte(low: Byte, high: nat, b: nat)
    ensures BitOr(low + 256 * high, 256 * b) == low + 256 * BitOr(high, b)
  {
    var a := low + 256 * high;
    OrAboveNibble(a, 16 * b);
    OrAboveNibble(a / 16, b);
    assert a / 16 / 16 == high && a / 16 % 16 * 16 + a % 16 == low;
  }

  /** Or-ing one more shifted byte into the value of the bytes before gives the value of them all. */
  lemma {:induction false} FromBytesNext(s: seq<Byte>, b: Byte)
    ensures FromBytes(s + [b]) == BitOr(FromBytes(s), ShiftLeft(b, |s|))
    ensures FromBytes(s + [b]) == FromBytes(s) + ShiftLeft(b, |s|)
  {
    if s == [] {
      assert (s + [b])[1..] == [];
      OrWithZero(b);
    } else {
      FromBytesNext(s[1..], b);
      assert (s + [b])[1..] == s[1..] + [b];
      OrAboveByte(s[0], FromBytes(s[1..]), ShiftLeft(b, |s| - 1));
    }
  }

  lemma Ranges()
    ensures Range(4) == 0x1_0000_0000
    ensures Range(8) == 0x1_0000_0000_0000_0000
  {
    assert ShiftLeft(1, 2) == 0x1_0000 && ShiftLeft(1, 4) == 0x1_0000_0000;
    assert ShiftLeft(1, 6) == 0x1_0000_0000_0000;
  }

  /** Bytes read as zero exactly when every one of them is. */
  lemma {:induction false} ZeroBytes(s: seq<Byte>)
    ensures FromBytes(s) == 0 <==> forall i | 0 <= i < |s| :: s[i] == 0
  {
    if s != [] {
      ZeroBytes(s[1..]);
      assert forall i | 1 <= i < |s| :: s[1..][i - 1] == s[i];
    }
  }

  /** `U32ToU8` and `U64ToU8`: n is 4 or 8; too short an array is left alone. */
  method StoreBytes(mem: array<Byte>, offset: nat, value: nat, n: nat, arraySize: nat)
    requires offset + n <= mem.Length
    modifies mem
    ensures arraySize < n ==> mem[..] == old(mem[..])
    ensures arraySize >= n ==>
      mem[..] == old(mem[..offset]) + ToBytes(value, n) + old(mem[offset + n..])
  {
    if arraySize < n {
      return;
    }
    for i := 0 to n
      invariant forall j | 0 <= j < i :: mem[offset + j] == ShiftRight(value, j) % 256
      invariant forall j | 0 <= j < mem.Length && !(offset <= j < offset + i) :: mem[j] == old(mem[j])
    {
      mem[offset + i] := ShiftRight(value, i) % 256;
    }
    forall j | 0 <= j < n ensures mem[offset + j] == ToBytes(value, n)[j] {
      ToBytesAt(value, n, j);
    }
    assert mem[..] == old(mem[..offset]) + ToBytes(value, n) + old(mem[offset + n..]);
  }

  /** `U8ToU32` and `U8ToU64`; too short an array reads as all ones. */
  method LoadBytes(mem: array<Byte>, offset: nat, n: nat, arraySize: nat) returns (value: nat)
    requires offset + n <= mem.Length && n in {4, 8}
    ensures value == if arraySize < n then Range(n) - 1 else FromBytes(mem[offset..offset + n])
  {
    if arraySize < n {
      Ranges();
      return if n == 4 then 0xffff_ffff else 0xffff_ffff_ffff_ffff;
    }
    value := 0;
    for i := 0 to n
      invariant value == FromBytes(mem[offset..offset + i])
    {
      FromBytesNext(mem[offset..offset + i], mem[offset + i]);
      assert mem[offset..offset + i + 1] == mem[offset..offset + i] + [mem[offset + i]];
      value := BitOr(value, ShiftLeft(mem[offset + i], i));
    }
  }
}

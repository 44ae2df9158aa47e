/** Machine words and IPv4 addresses. */
module Ipv4 {
  type Byte = bv8

  type Word = bv32

  datatype Address = Address(bits: Word)

  function Count(b: Byte): (n: nat)
    ensures n < 256
  {
    b as int
  }

  /** `(uint8_t)`: counting up to a number in one byte, which wraps around. */
  function LowByte(n: nat): (b: Byte)
    ensures Count(b) == n % 256
  {
    CountOfZero();
    if n == 0 then 0
    else
      hide Count;
      CountNext(LowByte(n - 1));
      NextRemainder(n - 1);
      LowByte(n - 1) + 1
  }

  lemma NextRemainder(n: nat)
    ensures (n + 1) % 256 == if n % 256 == 255 then 0 else n % 256 + 1
  {
  }

  lemma CountOfZero()
    ensures Count(0) == 0
  {
  }

  lemma CountNext(b: Byte)
    ensures Count(b + 1) == if Count(b) == 255 then 0 else Count(b) + 1
  {
    assert b == 255 || (b + 1) as int == b as int + 1;
  }

  lemma SameCount(a: Byte, b: Byte)
    requires Count(a) == Count(b)
    ensures a == b
  {
    CountBack(a);
    CountBack(b);
  }

  lemma CountBack(a: Byte)
    ensures (a as int) as bv8 == a
  {
  }

  /** An address as a number: the order of addresses is the order of their numbers. */
  function Number(a: Address): nat {
    a.bits as int
  }

  lemma SameNumber(a: Address, b: Address)
    requires Number(a) == Number(b)
    ensures a == b
  {
    NumberBack(a.bits);
    NumberBack(b.bits);
  }

  lemma NumberBack(w: Word)
    ensures (w as int) as bv32 == w
  {
  }

  lemma NumbersTell()
    ensures forall a, b :: Number(a) == Number(b) ==> a == b
  {
    forall a, b | Number(a) == Number(b)
      ensures a == b
    {
      SameNumber(a, b);
    }
  }
}

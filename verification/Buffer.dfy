/** The moving iterator of packet buffers (buffer.h). Numbers go out in network byte order. */
module Buffer {
  import opened Ipv4

  function U32(w: Word): (b: seq<Byte>)
    ensures |b| == 4
  {
    [((w >> 24) & 0xff) as Byte, ((w >> 16) & 0xff) as Byte, ((w >> 8) & 0xff) as Byte, (w & 0xff) as Byte]
  }

  /** The number whose bytes come first, each at its place. */
  function FirstWord(bytes: seq<Byte>): Word
    requires |bytes| >= 4
  {
    (bytes[0] as Word << 24) | (bytes[1] as Word << 16) | (bytes[2] as Word << 8) | bytes[3] as Word
  }

  lemma WordInFront(w: Word, after: seq<Byte>)
    ensures FirstWord(U32(w) + after) == w
  {
  }

  /** A written word is read back wherever it stands. */
  lemma WordInPlace(before: seq<Byte>, w: Word, after: seq<Byte>)
    ensures FirstWord((before + U32(w) + after)[|before|..]) == w
  {
    WordInFront(w, after);
    hide FirstWord, U32;
    assert (before + U32(w) + after)[|before|..] == U32(w) + after;
  }

  lemma BytesOfWord(a: Byte, b: Byte, c: Byte, d: Byte)
    ensures U32(FirstWord([a, b, c, d])) == [a, b, c, d]
  {
  }

  lemma WordBack(bytes: seq<Byte>)
    requires |bytes| >= 4
    ensures U32(FirstWord(bytes)) == bytes[..4]
  {
    BytesOfWord(bytes[0], bytes[1], bytes[2], bytes[3]);
    hide U32;
    assert FirstWord([bytes[0], bytes[1], bytes[2], bytes[3]]) == FirstWord(bytes);
  }

  /** Shifting in the bytes one by one puts each at its place. */
  lemma Accumulated(bytes: seq<Byte>)
    requires |bytes| >= 4
    ensures (((((bytes[0] as Word << 8) | bytes[1] as Word) << 8) | bytes[2] as Word) << 8) | bytes[3] as Word ==
      FirstWord(bytes)
  {
  }

  class Iterator {
    const buffer: array<Byte>
    const start: nat
    var current: nat

    constructor (buffer: array<Byte>, start: nat)
      requires start <= buffer.Length
      ensures this.buffer == buffer && this.start == start && current == start
      ensures Output() == []
    {
      this.buffer, this.start, current := buffer, start, start;
    }

    predicate Valid()
      reads this
    {
      start <= current <= buffer.Length
    }

    /** The bytes passed over so far. */
    function Output(): seq<Byte>
      requires Valid()
      reads this, buffer
    {
      buffer[start..current]
    }

    /** The bytes still ahead. */
    function Rest(): seq<Byte>
      requires Valid()
      reads this, buffer
    {
      buffer[current..]
    }

    /** The bytes in front of the iterator's first position. */
    function Front(): seq<Byte>
      requires Valid()
      reads this, buffer
    {
      buffer[..start]
    }

    method WriteU8(data: Byte)
      requires Valid() && |Rest()| >= 1
      modifies `current, buffer
      ensures Valid() && Front() == old(Front()) && Output() == old(Output()) + [data] && Rest() == old(Rest())[1..]
    {
      buffer[current] := data;
      current := current + 1;
    }

    method WriteHtonU32(data: Word)
      requires Valid() && |Rest()| >= 4
      modifies `current, buffer
      ensures Valid() && Front() == old(Front()) && Output() == old(Output()) + U32(data) && Rest() == old(Rest())[4..]
    {
      buffer[current] := ((data >> 24) & 0xff) as Byte;
      buffer[current + 1] := ((data >> 16) & 0xff) as Byte;
      buffer[current + 2] := ((data >> 8) & 0xff) as Byte;
      buffer[current + 3] := (data & 0xff) as Byte;
      current := current + 4;
    }

    method ReadU8() returns (data: Byte)
      requires Valid() && |Rest()| >= 1
      modifies `current
      ensures Valid() && data == old(Rest())[0] && Rest() == old(Rest())[1..] && current == old(current) + 1
    {
      data := buffer[current];
      current := current + 1;
    }

    method ReadNtohU32() returns (data: Word)
      requires Valid() && |Rest()| >= 4
      modifies `current
      ensures Valid() && data == FirstWord(old(Rest())) && Rest() == old(Rest())[4..] && current == old(current) + 4
    {
      Accumulated(Rest());
      data := buffer[current] as Word;
      data := data << 8;
      data := data | buffer[current + 1] as Word;
      data := data << 8;
      data := data | buffer[current + 2] as Word;
      data := data << 8;
      data := data | buffer[current + 3] as Word;
      current := current + 4;
    }
  }
}

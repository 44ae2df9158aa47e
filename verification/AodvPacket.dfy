/** Route request and route reply headers (aodv-packet.cc, sections 5.1 and 5.2 of RFC 3561). */
module AodvPacket {
  import opened Ipv4
  import opened Buffer

  /** Bit `k` of a flag byte, bit 0 being the least significant. */
  predicate Bit(flags: Byte, k: bv3) {
    (flags >> k) & 1 == 1
  }

  /** Bit `b` is set or cleared as `f` says and every other bit is as before. */
  ghost predicate SetsOnly(before: Byte, after: Byte, b: bv3, f: bool) {
    forall k: bv3 :: Bit(after, k) <==> if k == b then f else Bit(before, k)
  }

  datatype Rreq = Rreq(flags: Byte, reserved: Byte, hopCount: Byte, requestID: Word,
                       dst: Address, dstSeqNo: Word, origin: Address, originSeqNo: Word)

  datatype Rrep = Rrep(flags: Byte, prefixSize: Byte, hopCount: Byte,
                       dst: Address, dstSeqNo: Word, origin: Address, lifeTime: Word)

  const RREQ_SIZE := 23
  const RREP_SIZE := 19

  /** The bytes of a route request, in the order in which they are sent. */
  function RreqBytes(h: Rreq): (bytes: seq<Byte>)
    ensures |bytes| == RREQ_SIZE
  {
    [h.flags] + [h.reserved] + [h.hopCount] + U32(h.requestID) + U32(h.dst.bits) + U32(h.dstSeqNo)
    + U32(h.origin.bits) + U32(h.originSeqNo)
  }

  function RreqOf(bytes: seq<Byte>): Rreq
    requires |bytes| >= RREQ_SIZE
  {
    Rreq(bytes[0], bytes[1], bytes[2], FirstWord(bytes[3..]), Address(FirstWord(bytes[7..])), FirstWord(bytes[11..]),
         Address(FirstWord(bytes[15..])), FirstWord(bytes[19..]))
  }

  function RrepBytes(h: Rrep): (bytes: seq<Byte>)
    ensures |bytes| == RREP_SIZE
  {
    [h.flags] + [h.prefixSize] + [h.hopCount] + U32(h.dst.bits) + U32(h.dstSeqNo) + U32(h.origin.bits) + U32(h.lifeTime)
  }

  function RrepOf(bytes: seq<Byte>): Rrep
    requires |bytes| >= RREP_SIZE
  {
    Rrep(bytes[0], bytes[1], bytes[2], Address(FirstWord(bytes[3..])), FirstWord(bytes[7..]),
         Address(FirstWord(bytes[11..])), FirstWord(bytes[15..]))
  }

  // ----- the headers

  /** The three bytes at the start of a header. */
  method WriteThree(i: Iterator, a: Byte, b: Byte, c: Byte)
    requires i.Valid() && i.Output() == [] && |i.Rest()| >= 3
    modifies i`current, i.buffer
    ensures i.Valid() && i.Front() == old(i.Front()) && i.Output() == [a] + [b] + [c] && i.Rest() == old(i.Rest())[3..]
  {
    i.WriteU8(a);
    assert i.Output() == [a];
    i.WriteU8(b);
    i.WriteU8(c);
  }

  /** The three bytes at the start of a header. */
  method ReadThree(i: Iterator) returns (a: Byte, b: Byte, c: Byte)
    requires i.Valid() && |i.Rest()| >= 3
    modifies i`current
    ensures i.Valid() && i.Rest() == old(i.Rest())[3..] && i.current == old(i.current) + 3
    ensures a == old(i.Rest())[0] && b == old(i.Rest())[1] && c == old(i.Rest())[2]
  {
    a := i.ReadU8();
    b := i.ReadU8();
    c := i.ReadU8();
  }

  /** The four words at the end of both headers. */
  method WriteFour(i: Iterator, a: Word, b: Word, c: Word, d: Word)
    requires i.Valid() && |i.Rest()| >= 16
    modifies i`current, i.buffer
    ensures i.Valid() && i.Front() == old(i.Front()) && i.Rest() == old(i.Rest())[16..]
    ensures i.Output() == old(i.Output()) + U32(a) + U32(b) + U32(c) + U32(d)
  {
    hide U32;
    i.WriteHtonU32(a);
    i.WriteHtonU32(b);
    i.WriteHtonU32(c);
    i.WriteHtonU32(d);
  }

  /** The four words at the end of both headers. */
  method ReadFour(i: Iterator) returns (a: Word, b: Word, c: Word, d: Word)
    requires i.Valid() && |i.Rest()| >= 16
    modifies i`current
    ensures i.Valid() && i.Rest() == old(i.Rest())[16..] && i.current == old(i.current) + 16
    ensures a == FirstWord(old(i.Rest())) && b == FirstWord(old(i.Rest())[4..])
    ensures c == FirstWord(old(i.Rest())[8..]) && d == FirstWord(old(i.Rest())[12..])
  {
    hide FirstWord;
    a := i.ReadNtohU32();
    b := i.ReadNtohU32();
    c := i.ReadNtohU32();
    d := i.ReadNtohU32();
  }

  class RreqHeader {
    var flags: Byte
    var reserved: Byte
    var hopCount: Byte
    var requestID: Word
    var dst: Address
    var dstSeqNo: Word
    var origin: Address
    var originSeqNo: Word

    function Value(): Rreq
      reads this
    {
      Rreq(flags, reserved, hopCount, requestID, dst, dstSeqNo, origin, originSeqNo)
    }

    constructor (h: Rreq)
      ensures Value() == h
    {
      flags, reserved, hopCount, requestID := h.flags, h.reserved, h.hopCount, h.requestID;
      dst, dstSeqNo, origin, originSeqNo := h.dst, h.dstSeqNo, h.origin, h.originSeqNo;
    }

    method Serialize(i: Iterator)
      requires i.Valid() && i.Output() == [] && |i.Rest()| >= RREQ_SIZE
      modifies i`current, i.buffer
      ensures i.Valid() && i.Front() == old(i.Front()) && i.Output() == RreqBytes(Value())
      ensures i.Rest() == old(i.Rest())[RREQ_SIZE..]
    {
      hide U32;
      WriteThree(i, flags, reserved, hopCount);
      i.WriteHtonU32(requestID);
      WriteFour(i, dst.bits, dstSeqNo, origin.bits, originSeqNo);
    }

    method Deserialize(i: Iterator) returns (dist: nat)
      requires i.Valid() && |i.Rest()| >= RREQ_SIZE
      modifies this, i`current
      ensures Value() == RreqOf(old(i.Rest())) && dist == RREQ_SIZE
      ensures i.Valid() && i.Rest() == old(i.Rest())[RREQ_SIZE..]
    {
      hide FirstWord;
      var start := i.current;
      ghost var b := i.Rest();
      var f, r, c := ReadThree(i);
      var id := i.ReadNtohU32();
      var d, dSeqNo, o, last := ReadFour(i);
      assert b[3..][4..] == b[7..] && b[7..][4..] == b[11..] && b[7..][8..] == b[15..] && b[7..][12..] == b[19..];
      flags, reserved, hopCount, requestID := f, r, c, id;
      dst, dstSeqNo, origin, originSeqNo := Address(d), dSeqNo, Address(o), last;
      dist := i.current - start;
    }

    method SetGratiousRrep(f: bool)
      modifies `flags
      ensures SetsOnly(old(flags), flags, 5, f)
    {
      if f {
        flags := flags | (1 << 5);
      } else {
        flags := flags & !(1 << 5);
      }
    }

    method GetGratiousRrep() returns (f: bool)
      ensures f <==> Bit(flags, 5)
    {
      f := flags & (1 << 5) != 0;
    }

    method SetDestinationOnly(f: bool)
      modifies `flags
      ensures SetsOnly(old(flags), flags, 4, f)
    {
      if f {
        flags := flags | (1 << 4);
      } else {
        flags := flags & !(1 << 4);
      }
    }

    method GetDestinationOnly() returns (f: bool)
      ensures f <==> Bit(flags, 4)
    {
      f := flags & (1 << 4) != 0;
    }

    method SetUnknownSeqno(f: bool)
      modifies `flags
      ensures SetsOnly(old(flags), flags, 3, f)
    {
      if f {
        flags := flags | (1 << 3);
      } else {
        flags := flags & !(1 << 3);
      }
    }

    method GetUnknownSeqno() returns (f: bool)
      ensures f <==> Bit(flags, 3)
    {
      f := flags & (1 << 3) != 0;
    }
  }

  class RrepHeader {
    var flags: Byte
    var prefixSize: Byte
    var hopCount: Byte
    var dst: Address
    var dstSeqNo: Word
    var origin: Address
    var lifeTime: Word

    function Value(): Rrep
      reads this
    {
      Rrep(flags, prefixSize, hopCount, dst, dstSeqNo, origin, lifeTime)
    }

    constructor (h: Rrep)
      ensures Value() == h
    {
      flags, prefixSize, hopCount := h.flags, h.prefixSize, h.hopCount;
      dst, dstSeqNo, origin, lifeTime := h.dst, h.dstSeqNo, h.origin, h.lifeTime;
    }

    method Serialize(i: Iterator)
      requires i.Valid() && i.Output() == [] && |i.Rest()| >= RREP_SIZE
      modifies i`current, i.buffer
      ensures i.Valid() && i.Front() == old(i.Front()) && i.Output() == RrepBytes(Value())
      ensures i.Rest() == old(i.Rest())[RREP_SIZE..]
    {
      hide U32;
      WriteThree(i, flags, prefixSize, hopCount);
      WriteFour(i, dst.bits, dstSeqNo, origin.bits, lifeTime);
    }

    method Deserialize(i: Iterator) returns (dist: nat)
      requires i.Valid() && |i.Rest()| >= RREP_SIZE
      modifies this, i`current
      ensures Value() == RrepOf(old(i.Rest())) && dist == RREP_SIZE
      ensures i.Valid() && i.Rest() == old(i.Rest())[RREP_SIZE..]
    {
      hide FirstWord;
      var start := i.current;
      ghost var b := i.Rest();
      var f, p, c := ReadThree(i);
      var d, dSeqNo, o, last := ReadFour(i);
      assert b[3..][4..] == b[7..] && b[3..][8..] == b[11..] && b[3..][12..] == b[15..];
      flags, prefixSize, hopCount := f, p, c;
      dst, dstSeqNo, origin, lifeTime := Address(d), dSeqNo, Address(o), last;
      dist := i.current - start;
    }

    method SetAckRequired(f: bool)
      modifies `flags
      ensures SetsOnly(old(flags), flags, 6, f)
    {
      if f {
        flags := flags | (1 << 6);
      } else {
        flags := flags & !(1 << 6);
      }
    }

    method GetAckRequired() returns (f: bool)
      ensures f <==> Bit(flags, 6)
    {
      f := flags & (1 << 6) != 0;
    }
  }

  // ----- round trips

  lemma TailAfter(front: seq<Byte>, a: seq<Byte>, rest: seq<Byte>)
    ensures (front + a + rest)[|front|..] == a + rest
  {
  }

  /** The three bytes and the fields behind them. */
  lemma FourFields(head: seq<Byte>, a: seq<Byte>, b: seq<Byte>, c: seq<Byte>, d: seq<Byte>, rest: seq<Byte>)
    requires |head| == 3 && |a| == |b| == |c| == |d| == 4
    ensures var s := head + a + b + c + d + rest;
      && s[..3] == head && s[3..] == a + (b + c + d + rest) && s[7..] == b + (c + d + rest)
      && s[11..] == c + (d + rest) && s[15..] == d + rest
  {
    var s := head + a + b + c + d + rest;
    assert s == head + a + (b + c + d + rest) == head + a + b + (c + d + rest) == head + a + b + c + (d + rest);
    TailAfter(head, a, b + c + d + rest);
    TailAfter(head + a, b, c + d + rest);
    TailAfter(head + a + b, c, d + rest);
    TailAfter(head + a + b + c, d, rest);
  }

  /** A route request is read back from its 23 bytes, whatever follows them. */
  lemma RreqRoundTrip(h: Rreq, rest: seq<Byte>)
    ensures RreqOf(RreqBytes(h) + rest) == h
  {
    hide U32, FirstWord;
    var head := [h.flags] + [h.reserved] + [h.hopCount];
    var id, dst, seqNo, origin := U32(h.requestID), U32(h.dst.bits), U32(h.dstSeqNo), U32(h.origin.bits);
    var last := U32(h.originSeqNo) + rest;
    var bytes := head + id + dst + seqNo + origin + last;
    assert RreqBytes(h) + rest == bytes;
    FourFields(head, id, dst, seqNo, origin, last);
    assert bytes[0] == bytes[..3][0] && bytes[1] == bytes[..3][1] && bytes[2] == bytes[..3][2];
    assert bytes[19..] == bytes[15..][4..] == last;
    WordInFront(h.requestID, dst + seqNo + origin + last);
    WordInFront(h.dst.bits, seqNo + origin + last);
    WordInFront(h.dstSeqNo, origin + last);
    WordInFront(h.origin.bits, last);
    WordInFront(h.originSeqNo, rest);
  }

  /** Every 23 bytes are the bytes of the route request read from them. */
  lemma RreqBack(bytes: seq<Byte>)
    requires |bytes| >= RREQ_SIZE
    ensures RreqBytes(RreqOf(bytes)) == bytes[..RREQ_SIZE]
  {
    hide U32, FirstWord;
    WordBack(bytes[3..]);
    WordBack(bytes[7..]);
    WordBack(bytes[11..]);
    WordBack(bytes[15..]);
    WordBack(bytes[19..]);
  }

  /** A route reply is read back from its 19 bytes, whatever follows them. */
  lemma RrepRoundTrip(h: Rrep, rest: seq<Byte>)
    ensures RrepOf(RrepBytes(h) + rest) == h
  {
    hide U32, FirstWord;
    var head := [h.flags] + [h.prefixSize] + [h.hopCount];
    var dst, seqNo, origin, lifeTime := U32(h.dst.bits), U32(h.dstSeqNo), U32(h.origin.bits), U32(h.lifeTime);
    var bytes := head + dst + seqNo + origin + lifeTime + rest;
    assert RrepBytes(h) + rest == bytes;
    FourFields(head, dst, seqNo, origin, lifeTime, rest);
    assert bytes[0] == bytes[..3][0] && bytes[1] == bytes[..3][1] && bytes[2] == bytes[..3][2];
    WordInFront(h.dst.bits, seqNo + origin + lifeTime + rest);
    WordInFront(h.dstSeqNo, origin + lifeTime + rest);
    WordInFront(h.origin.bits, lifeTime + rest);
    WordInFront(h.lifeTime, rest);
  }

  /** Every 19 bytes are the bytes of the route reply read from them. */
  lemma RrepBack(bytes: seq<Byte>)
    requires |bytes| >= RREP_SIZE
    ensures RrepBytes(RrepOf(bytes)) == bytes[..RREP_SIZE]
  {
    hide U32, FirstWord;
    WordBack(bytes[3..]);
    WordBack(bytes[7..]);
    WordBack(bytes[11..]);
    WordBack(bytes[15..]);
  }
}

/** Where each field stands in the sent headers: the message formats of sections 5.1 to 5.3 of RFC 3561, in network byte
    order, behind the type byte. */
module WireLayout {
  import opened Ipv4
  import opened Buffer
  import opened AodvPacket
  import opened Rerr

  /** Four bytes at offset `at` hold `w`, the most significant one first. */
  ghost predicate HasWord(bytes: seq<Byte>, at: nat, w: Word) {
    && at + 4 <= |bytes|
    && bytes[at] as Word * 0x100_0000 + bytes[at + 1] as Word * 0x1_0000 + bytes[at + 2] as Word * 0x100
       + bytes[at + 3] as Word == w
  }

  lemma WordIsBigEndian(w: Word)
    ensures HasWord(U32(w), 0, w)
  {
  }

  lemma WordAt(before: seq<Byte>, w: Word, after: seq<Byte>)
    ensures HasWord(before + U32(w) + after, |before|, w)
  {
    var all := before + U32(w) + after;
    WordIsBigEndian(w);
    hide U32;
    assert forall i :: 0 <= i < 4 ==> all[|before| + i] == U32(w)[i];
  }

  /** Route requests: flags, reserved bits, hop count, id, destination, its sequence number, originator, its sequence
      number. */
  lemma RreqLayout(h: Rreq)
    ensures var b := RreqBytes(h);
      && |b| == 23 && b[0] == h.flags && b[1] == h.reserved && b[2] == h.hopCount
      && HasWord(b, 3, h.requestID) && HasWord(b, 7, h.dst.bits) && HasWord(b, 11, h.dstSeqNo)
      && HasWord(b, 15, h.origin.bits) && HasWord(b, 19, h.originSeqNo)
  {
    hide U32, HasWord;
    var head := [h.flags] + [h.reserved] + [h.hopCount];
    var a, b, c, d, e := U32(h.requestID), U32(h.dst.bits), U32(h.dstSeqNo), U32(h.origin.bits), U32(h.originSeqNo);
    var all := RreqBytes(h);
    assert all == head + a + (b + c + d + e);
    assert all == (head + a) + b + (c + d + e);
    assert all == (head + a + b) + c + (d + e);
    assert all == (head + a + b + c) + d + e;
    assert all == (head + a + b + c + d) + e + [];
    WordAt(head, h.requestID, b + c + d + e);
    WordAt(head + a, h.dst.bits, c + d + e);
    WordAt(head + a + b, h.dstSeqNo, d + e);
    WordAt(head + a + b + c, h.origin.bits, e);
    WordAt(head + a + b + c + d, h.originSeqNo, []);
  }

  /** Route replies: flags, prefix size, hop count, destination, its sequence number, originator, lifetime. */
  lemma RrepLayout(h: Rrep)
    ensures var b := RrepBytes(h);
      && |b| == 19 && b[0] == h.flags && b[1] == h.prefixSize && b[2] == h.hopCount
      && HasWord(b, 3, h.dst.bits) && HasWord(b, 7, h.dstSeqNo) && HasWord(b, 11, h.origin.bits)
      && HasWord(b, 15, h.lifeTime)
  {
    hide U32, HasWord;
    var head := [h.flags] + [h.prefixSize] + [h.hopCount];
    var a, b, c, d := U32(h.dst.bits), U32(h.dstSeqNo), U32(h.origin.bits), U32(h.lifeTime);
    var all := RrepBytes(h);
    assert all == head + a + (b + c + d);
    assert all == (head + a) + b + (c + d);
    assert all == (head + a + b) + c + d;
    assert all == (head + a + b + c) + d + [];
    WordAt(head, h.dst.bits, b + c + d);
    WordAt(head + a, h.dstSeqNo, c + d);
    WordAt(head + a + b, h.origin.bits, d);
    WordAt(head + a + b + c, h.lifeTime, []);
  }

  lemma {:induction false} PairLayout(l: seq<Destination>, i: nat)
    requires i < |l|
    ensures HasWord(Pairs(l), 8 * i, l[i].address.bits) && HasWord(Pairs(l), 8 * i + 4, l[i].seqNo)
  {
    var n := |l| - 1;
    var front, a, b := Pairs(l[..n]), U32(l[n].address.bits), U32(l[n].seqNo);
    assert Pairs(l) == front + a + b;
    if i == n {
      hide U32, HasWord, Pairs;
      WordAt(front, l[n].address.bits, b);
      assert front + a + b == (front + a) + b + [];
      WordAt(front + a, l[n].seqNo, []);
    } else {
      PairLayout(l[..n], i);
      hide U32, Pairs;
      assert forall k :: 0 <= k < |front| ==> Pairs(l)[k] == front[k];
    }
  }

  /** Route errors: flag, reserved bits, the number of destinations modulo 256, and each destination with its sequence
      number, in the order of their addresses. */
  lemma RerrLayout(h: Rerr) returns (l: seq<Destination>)
    ensures var b := RerrBytes(h);
      && |b| == 3 + 8 * |l| && b[0] == h.flag && b[1] == h.reserved && b[2] as int == |l| % 256
      && forall i :: 0 <= i < |l| ==>
           HasWord(b, 3 + 8 * i, l[i].address.bits) && HasWord(b, 7 + 8 * i, l[i].seqNo)
    ensures forall d :: d in l <==> d.address in h.dests && h.dests[d.address] == d.seqNo
    ensures forall i, j :: 0 <= i < j < |l| ==> l[i].address.bits as int < l[j].address.bits as int
  {
    l := Listing(h.dests);
    ListingIsSorted(h.dests);
    hide Listing, Pairs, HasWord;
    var b, pairs := RerrBytes(h), Pairs(l);
    assert b == [h.flag, h.reserved, DestCount(h)] + pairs;
    forall i | 0 <= i < |l|
      ensures HasWord(b, 3 + 8 * i, l[i].address.bits) && HasWord(b, 7 + 8 * i, l[i].seqNo)
    {
      PairLayout(l, i);
      WordBehind([h.flag, h.reserved, DestCount(h)], pairs, 8 * i, l[i].address.bits);
      WordBehind([h.flag, h.reserved, DestCount(h)], pairs, 8 * i + 4, l[i].seqNo);
    }
  }

  lemma WordBehind(before: seq<Byte>, bytes: seq<Byte>, at: nat, w: Word)
    requires HasWord(bytes, at, w)
    ensures HasWord(before + bytes, |before| + at, w)
  {
    assert forall i :: 0 <= i < |bytes| ==> (before + bytes)[|before| + i] == bytes[i];
  }
}

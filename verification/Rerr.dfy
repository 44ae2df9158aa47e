/** Route error headers (aodv-packet.cc, section 5.3 of RFC 3561). */
module Rerr {
  import opened Wrappers
  import opened Ipv4
  import opened Buffer
  import opened AodvPacket

  datatype Destination = Destination(address: Address, seqNo: Word)

  datatype Rerr = Rerr(flag: Byte, reserved: Byte, dests: map<Address, Word>)

  // ----- the order of the destination map

  /** `m_unreachableDstSeqNo.begin ()`. */
  function Smallest(m: map<Address, Word>): (a: Address)
    requires m != map[]
    ensures a in m && forall b :: b in m ==> Number(a) <= Number(b)
  {
    NumbersTell();
    SmallestExists(m.Keys);
    var a :| a in m && forall b :: b in m ==> Number(a) <= Number(b);
    a
  }

  ghost predicate IsSmallest(s: set<Address>, a: Address) {
    a in s && forall b :: b in s ==> Number(a) <= Number(b)
  }

  lemma SmallerOfTwo(s: set<Address>, x: Address, a: Address)
    requires x in s && IsSmallest(s - {x}, a)
    ensures IsSmallest(s, if Number(a) <= Number(x) then a else x)
  {
    hide Number;
    forall b | b in s
      ensures b in s - {x} || b == x
    {
    }
  }

  lemma {:induction false} SmallestExists(s: set<Address>)
    requires s != {}
    ensures exists a :: a in s && forall b :: b in s ==> Number(a) <= Number(b)
  {
    var x :| x in s;
    if s == {x} {
      assert IsSmallest(s, x);
    } else {
      SmallestExists(s - {x});
      var a :| a in s - {x} && forall b :: b in s - {x} ==> Number(a) <= Number(b);
      SmallerOfTwo(s, x, a);
      hide Number;
    }
  }

  /** The destinations in the order in which the map is traversed. */
  function Listing(m: map<Address, Word>): (l: seq<Destination>)
    ensures |l| == |m|
    decreases |m|
  {
    if m == map[] then []
    else
      var a := Smallest(m);
      assert (m - {a}).Keys == m.Keys - {a};
      [Destination(a, m[a])] + Listing(m - {a})
  }

  /** The map after inserting the destinations one by one; an address that is present keeps its number. */
  function Inserted(l: seq<Destination>): map<Address, Word> {
    if l == [] then map[]
    else Insert(Inserted(l[..|l| - 1]), l[|l| - 1].address, l[|l| - 1].seqNo)
  }

  function Insert(m: map<Address, Word>, a: Address, seqNo: Word): map<Address, Word> {
    if a in m then m else m[a := seqNo]
  }

  // ----- the wire format

  /** `GetDestCount`: the size as one byte. */
  function DestCount(h: Rerr): (c: Byte)
    ensures Count(c) <= |h.dests|
    ensures Count(c) == |h.dests| <==> |h.dests| <= 255
  {
    LowByte(|h.dests|)
  }

  function SerializedSize(h: Rerr): nat {
    3 + 8 * Count(DestCount(h))
  }

  function Pairs(l: seq<Destination>): (bytes: seq<Byte>)
    ensures |bytes| == 8 * |l|
  {
    if l == [] then []
    else Pairs(l[..|l| - 1]) + U32(l[|l| - 1].address.bits) + U32(l[|l| - 1].seqNo)
  }

  function RerrBytes(h: Rerr): (bytes: seq<Byte>)
    ensures |bytes| == 3 + 8 * |h.dests|
  {
    [h.flag] + [h.reserved] + [DestCount(h)] + Pairs(Listing(h.dests))
  }

  /** The first `n` destinations in `bytes`. */
  function Destinations(bytes: seq<Byte>, n: nat): (l: seq<Destination>)
    requires |bytes| >= 8 * n
    ensures |l| == n
  {
    if n == 0 then []
    else Destinations(bytes, n - 1)
         + [Destination(Address(FirstWord(bytes[8 * (n - 1)..])), FirstWord(bytes[8 * (n - 1) + 4..]))]
  }

  predicate LongEnough(bytes: seq<Byte>) {
    |bytes| >= 3 && |bytes| >= 3 + 8 * Count(bytes[2])
  }

  function RerrOf(bytes: seq<Byte>): Rerr
    requires LongEnough(bytes)
  {
    Rerr(bytes[0], bytes[1], Inserted(Destinations(bytes[3..], Count(bytes[2]))))
  }

  /** `operator==`. */
  predicate Equals(a: Rerr, b: Rerr) {
    && a.flag == b.flag && a.reserved == b.reserved && DestCount(a) == DestCount(b)
    && Listing(a.dests)[..Count(DestCount(a))] == Listing(b.dests)[..Count(DestCount(b))]
  }

  // ----- the class

  class RerrHeader {
    var flag: Byte
    var reserved: Byte
    var dests: map<Address, Word>

    function Value(): Rerr
      reads this
    {
      Rerr(flag, reserved, dests)
    }

    /** What every operation keeps: the count fits the byte it is sent in. */
    predicate Valid()
      reads this
    {
      |dests| <= 255
    }

    constructor ()
      ensures Valid() && Value() == Rerr(0, 0, map[])
    {
      flag, reserved, dests := 0, 0, map[];
    }

    method GetDestCount() returns (count: Byte)
      ensures count == DestCount(Value()) && (Valid() ==> Count(count) == |dests|)
    {
      count := LowByte(|dests|);
    }

    method SetNoDelete(f: bool)
      modifies `flag
      ensures SetsOnly(old(flag), flag, 0, f)
    {
      if f {
        flag := flag | (1 << 0);
      } else {
        flag := flag & !(1 << 0);
      }
    }

    method GetNoDelete() returns (f: bool)
      ensures f <==> Bit(flag, 0)
    {
      f := flag & (1 << 0) != 0;
    }

    /** Adds a destination. The result is never `false`; a 256th destination stops the program (`None`). */
    method AddUnDestination(dst: Address, seqNo: Word) returns (r: Option<bool>)
      requires Valid()
      modifies `dests
      ensures Valid() && r != Some(false)
      ensures r == None <==> dst !in old(dests) && |old(dests)| == 255
      ensures Apply(old(dests), Add(dst, seqNo)) == if r == None then None else Some(dests)
      ensures r == None ==> dests == old(dests)
    {
      if dst in dests {
        return Some(true);
      }
      var count := GetDestCount();
      if !(Count(count) < 255) {
        return None;
      }
      dests := dests[dst := seqNo];
      return Some(true);
    }

    /** Takes out the destination with the smallest address. */
    method RemoveUnDestination() returns (un: Option<Destination>)
      requires Valid()
      modifies `dests
      ensures Valid() && (un == None <==> old(dests) == map[])
      ensures Apply(old(dests), Remove) == Some(dests)
      ensures un.Some? ==> Listing(old(dests)) == [un.value] + Listing(dests)
    {
      if dests == map[] {
        return None;
      }
      var a := Smallest(dests);
      un := Some(Destination(a, dests[a]));
      assert (dests - {a}).Keys == dests.Keys - {a};
      dests := dests - {a};
    }

    method Clear()
      modifies this
      ensures Valid() && Value() == Rerr(0, 0, map[]) && Apply(old(dests), ClearAll) == Some(dests)
    {
      dests := map[];
      flag := 0;
      reserved := 0;
    }

    method Serialize(i: Iterator)
      requires i.Valid() && i.Output() == [] && |i.Rest()| >= 3 + 8 * |dests|
      modifies i`current, i.buffer
      ensures i.Valid() && i.Front() == old(i.Front()) && i.Output() == RerrBytes(Value())
      ensures i.Rest() == old(i.Rest())[3 + 8 * |dests|..]
    {
      hide Listing, Pairs, DestCount;
      var count := GetDestCount();
      WriteThree(i, flag, reserved, count);
      WriteDestinations(i, Listing(dests));
    }

    /** Replaces the header by the one read. `None` stands for the failing assertion at the end. */
    method Deserialize(i: Iterator) returns (dist: Option<nat>)
      requires i.Valid() && LongEnough(i.Rest())
      modifies this, i`current
      ensures Valid() && Value() == RerrOf(old(i.Rest()))
      ensures i.Valid() && i.Rest() == old(i.Rest())[3 + 8 * Count(old(i.Rest()[2]))..]
      ensures dist == if |dests| == Count(old(i.Rest()[2])) then Some(SerializedSize(Value())) else None
    {
      hide FirstWord, Destinations, Inserted, Count;
      var start := i.current;
      ghost var b := i.Rest();
      var f, r, dest := ReadThree(i);
      var m := ReadDestinations(i, dest);
      InsertedSize(Destinations(b[3..], Count(dest)));
      flag, reserved, dests := f, r, m;
      var used := i.current - start;
      var count := GetDestCount();
      dist := if used == 3 + 8 * Count(count) then Some(used) else None;
    }
  }

  method WriteDestination(i: Iterator, d: Destination)
    requires i.Valid() && |i.Rest()| >= 8
    modifies i`current, i.buffer
    ensures i.Valid() && i.Front() == old(i.Front()) && i.Rest() == old(i.Rest())[8..]
    ensures i.Output() == old(i.Output()) + (U32(d.address.bits) + U32(d.seqNo))
  {
    hide U32;
    i.WriteHtonU32(d.address.bits);
    i.WriteHtonU32(d.seqNo);
  }

  lemma PairsNext(before: seq<Byte>, l: seq<Destination>, j: nat)
    requires j < |l|
    ensures before + Pairs(l[..j]) + (U32(l[j].address.bits) + U32(l[j].seqNo)) == before + Pairs(l[..j + 1])
  {
    hide U32;
    assert l[..j + 1][..j] == l[..j];
  }

  /** The loop of `Serialize` over the map. */
  method WriteDestinations(i: Iterator, l: seq<Destination>)
    requires i.Valid() && |i.Rest()| >= 8 * |l|
    modifies i`current, i.buffer
    ensures i.Valid() && i.Front() == old(i.Front()) && i.Output() == old(i.Output()) + Pairs(l)
    ensures i.Rest() == old(i.Rest())[8 * |l|..]
  {
    ghost var before, rest := i.Output(), i.Rest();
    assert before + Pairs(l[..0]) == before;
    hide U32, Pairs;
    for j := 0 to |l|
      invariant i.Valid() && i.Front() == old(i.Front())
      invariant i.Output() == before + Pairs(l[..j]) && i.Rest() == rest[8 * j..]
    {
      WriteDestination(i, l[j]);
      PairsNext(before, l, j);
      assert rest[8 * j..][8..] == rest[8 * (j + 1)..];
    }
    assert l[..|l|] == l;
  }

  method ReadDestination(i: Iterator) returns (d: Destination)
    requires i.Valid() && |i.Rest()| >= 8
    modifies i`current
    ensures i.Valid() && i.Rest() == old(i.Rest())[8..] && i.current == old(i.current) + 8
    ensures d == Destination(Address(FirstWord(old(i.Rest()))), FirstWord(old(i.Rest())[4..]))
  {
    hide FirstWord;
    var address := i.ReadNtohU32();
    var seqNo := i.ReadNtohU32();
    d := Destination(Address(address), seqNo);
  }

  /** The loop of `Deserialize`. */
  method ReadDestinations(i: Iterator, dest: Byte) returns (m: map<Address, Word>)
    requires i.Valid() && |i.Rest()| >= 8 * Count(dest)
    modifies i`current
    ensures i.Valid() && i.Rest() == old(i.Rest())[8 * Count(dest)..] && i.current == old(i.current) + 8 * Count(dest)
    ensures m == Inserted(Destinations(old(i.Rest()), Count(dest)))
  {
    hide FirstWord, Count, Inserted, Destinations, Insert;
    ghost var rest := i.Rest();
    m := map[];
    NothingRead(rest);
    for k := 0 to Count(dest)
      invariant i.Valid() && i.Rest() == rest[8 * k..] && i.current == old(i.current) + 8 * k
      invariant m == Inserted(Destinations(rest, k))
    {
      var d := ReadDestination(i);
      DestinationNext(rest, k, d, m);
      if d.address !in m {
        m := m[d.address := d.seqNo];
      }
    }
  }

  lemma NothingRead(rest: seq<Byte>)
    ensures Inserted(Destinations(rest, 0)) == map[]
  {
  }

  lemma DestinationNext(rest: seq<Byte>, k: nat, d: Destination, m: map<Address, Word>)
    requires |rest| >= 8 * (k + 1) && m == Inserted(Destinations(rest, k))
    requires d == Destination(Address(FirstWord(rest[8 * k..])), FirstWord(rest[8 * k..][4..]))
    ensures rest[8 * k..][8..] == rest[8 * (k + 1)..]
    ensures (if d.address in m then m else m[d.address := d.seqNo]) == Inserted(Destinations(rest, k + 1))
  {
    hide FirstWord, Inserted;
    assert rest[8 * k..][4..] == rest[8 * k + 4..];
    assert Destinations(rest, k + 1) == Destinations(rest, k) + [d];
    InsertedNext(Destinations(rest, k), d);
  }

  lemma InsertedNext(l: seq<Destination>, d: Destination)
    ensures Inserted(l + [d]) == Insert(Inserted(l), d.address, d.seqNo)
  {
    assert (l + [d])[..|l|] == l;
  }

  // ----- the listing of a map, the map of a listing

  ghost predicate DistinctAddresses(l: seq<Destination>) {
    forall i, j :: 0 <= i < j < |l| ==> l[i].address != l[j].address
  }

  ghost predicate Increasing(l: seq<Destination>) {
    forall i, j :: 0 <= i < j < |l| ==> Number(l[i].address) < Number(l[j].address)
  }

  lemma {:induction false} InsertedKeys(l: seq<Destination>, a: Address)
    ensures a in Inserted(l) <==> exists i :: 0 <= i < |l| && l[i].address == a
  {
    if l != [] {
      InsertedKeys(l[..|l| - 1], a);
      assert l[|l| - 1].address == a ==> exists i :: 0 <= i < |l| && l[i].address == a;
    }
  }

  /** As many addresses as entries exactly when no address comes twice. */
  lemma {:induction false} InsertedSize(l: seq<Destination>)
    ensures |Inserted(l)| <= |l| && (|Inserted(l)| == |l| <==> DistinctAddresses(l))
  {
    if l != [] {
      var n := |l| - 1;
      InsertedSize(l[..n]);
      InsertedKeys(l[..n], l[n].address);
    }
  }

  lemma {:induction false} InsertedHolds(l: seq<Destination>, i: nat)
    requires DistinctAddresses(l) && i < |l|
    ensures l[i].address in Inserted(l) && Inserted(l)[l[i].address] == l[i].seqNo
  {
    var n := |l| - 1;
    InsertedKeys(l[..n], l[n].address);
    if i < n {
      InsertedHolds(l[..n], i);
    }
  }

  lemma {:induction false} ListingMembers(m: map<Address, Word>, d: Destination)
    ensures d in Listing(m) <==> d.address in m && m[d.address] == d.seqNo
    decreases |m|
  {
    if m != map[] {
      var a := Smallest(m);
      assert (m - {a}).Keys == m.Keys - {a};
      ListingMembers(m - {a}, d);
    }
  }

  lemma ListingPairs(m: map<Address, Word>)
    ensures forall d :: d in Listing(m) <==> d.address in m && m[d.address] == d.seqNo
  {
    forall d
      ensures d in Listing(m) <==> d.address in m && m[d.address] == d.seqNo
    {
      ListingMembers(m, d);
    }
  }

  lemma IncreasingCons(first: Destination, rest: seq<Destination>)
    requires Increasing(rest) && forall d :: d in rest ==> Number(first.address) < Number(d.address)
    ensures Increasing([first] + rest)
  {
  }

  lemma RestIsGreater(m: map<Address, Word>, a: Address, b: Address)
    requires a in m && (forall x :: x in m ==> Number(a) <= Number(x)) && b in m && b != a
    ensures Number(a) < Number(b)
  {
    if Number(a) == Number(b) {
      SameNumber(a, b);
    }
  }

  lemma {:induction false} ListingIncreases(m: map<Address, Word>)
    ensures Increasing(Listing(m))
    decreases |m|
  {
    if m != map[] {
      var a := Smallest(m);
      assert (m - {a}).Keys == m.Keys - {a};
      ListingIncreases(m - {a});
      ListingPairs(m - {a});
      var rest := Listing(m - {a});
      assert Listing(m) == [Destination(a, m[a])] + rest;
      hide Smallest, Increasing, Number, Listing;
      forall d | d in rest
        ensures Number(a) < Number(d.address)
      {
        RestIsGreater(m, a, d.address);
      }
      IncreasingCons(Destination(a, m[a]), rest);
    }
  }

  /** The listing has increasing addresses and exactly the pairs of the map. */
  lemma ListingIsSorted(m: map<Address, Word>)
    ensures Increasing(Listing(m))
    ensures forall d :: d in Listing(m) <==> d.address in m && m[d.address] == d.seqNo
  {
    hide Listing, Increasing;
    ListingIncreases(m);
    ListingPairs(m);
  }

  lemma MapOfListing(m: map<Address, Word>)
    ensures Inserted(Listing(m)) == m
  {
    var l := Listing(m);
    ListingIsSorted(m);
    hide Listing;
    forall a
      ensures a in Inserted(l) <==> a in m
      ensures a in m ==> a in Inserted(l) && Inserted(l)[a] == m[a]
    {
      InsertedKeys(l, a);
      if a in m {
        assert Destination(a, m[a]) in l;
        var i :| 0 <= i < |l| && l[i] == Destination(a, m[a]);
        InsertedHolds(l, i);
      }
    }
  }

  lemma FirstIsSmallest(l: seq<Destination>)
    requires Increasing(l) && l != []
    ensures Inserted(l) != map[] && Smallest(Inserted(l)) == l[0].address
  {
    InsertedKeys(l, l[0].address);
    assert l[0].address in Inserted(l);
    InsertedKeys(l, Smallest(Inserted(l)));
    hide Inserted, Number;
  }

  lemma ListingStep(m: map<Address, Word>, a: Address)
    requires m != map[] && a == Smallest(m)
    ensures Listing(m) == [Destination(a, m[a])] + Listing(m - {a})
  {
    hide Smallest;
  }

  lemma HeadInserted(l: seq<Destination>)
    requires Increasing(l) && l != []
    ensures l[0].address in Inserted(l) && Inserted(l)[l[0].address] == l[0].seqNo
  {
    IncreasingIsDistinct(l);
    hide Increasing, Inserted;
    InsertedHolds(l, 0);
  }

  lemma {:induction false} ListingOfMap(l: seq<Destination>)
    requires Increasing(l)
    ensures Listing(Inserted(l)) == l
    decreases |l|
  {
    if l != [] {
      assert Increasing(l[1..]);
      hide Number, Increasing;
      FirstIsSmallest(l);
      HeadInserted(l);
      WithoutFirst(l);
      hide Inserted, Listing;
      ListingStep(Inserted(l), l[0].address);
      ListingOfMap(l[1..]);
      assert l == [l[0]] + l[1..];
    }
  }

  lemma WithoutFirstAt(l: seq<Destination>, a: Address)
    requires DistinctAddresses(l) && l != [] && a != l[0].address
    ensures a in Inserted(l) <==> a in Inserted(l[1..])
    ensures a in Inserted(l) && a in Inserted(l[1..]) ==> Inserted(l)[a] == Inserted(l[1..])[a]
  {
    hide Inserted;
    InsertedKeys(l, a);
    InsertedKeys(l[1..], a);
    if i :| 1 <= i < |l| && l[i].address == a {
      assert l[1..][i - 1] == l[i];
      InsertedHolds(l[1..], i - 1);
      InsertedHolds(l, i);
    }
  }

  lemma FirstIsGone(l: seq<Destination>)
    requires DistinctAddresses(l) && l != []
    ensures l[0].address !in Inserted(l[1..])
  {
    hide Inserted;
    InsertedKeys(l[1..], l[0].address);
  }

  lemma WithoutFirst(l: seq<Destination>)
    requires Increasing(l) && l != []
    ensures Inserted(l) - {l[0].address} == Inserted(l[1..])
  {
    IncreasingIsDistinct(l);
    hide Inserted, Increasing;
    FirstIsGone(l);
    forall a | a != l[0].address
      ensures a in Inserted(l) <==> a in Inserted(l[1..])
      ensures a in Inserted(l) && a in Inserted(l[1..]) ==> Inserted(l)[a] == Inserted(l[1..])[a]
    {
      WithoutFirstAt(l, a);
    }
  }

  // ----- round trips

  lemma {:induction false} PairsRead(l: seq<Destination>, rest: seq<Byte>, n: nat)
    requires n <= |l|
    ensures Destinations(Pairs(l) + rest, n) == l[..n]
  {
    hide FirstWord, U32, Pairs;
    if n > 0 {
      PairsRead(l, rest, n - 1);
      PairAt(l, rest, n - 1);
    }
  }

  lemma {:induction false} PairAt(l: seq<Destination>, rest: seq<Byte>, k: nat)
    requires k < |l|
    ensures FirstWord((Pairs(l) + rest)[8 * k..]) == l[k].address.bits
    ensures FirstWord((Pairs(l) + rest)[8 * k + 4..]) == l[k].seqNo
  {
    var n := |l| - 1;
    var front, address, seqNo := Pairs(l[..n]), U32(l[n].address.bits), U32(l[n].seqNo);
    assert Pairs(l) + rest == front + address + (seqNo + rest) == front + address + seqNo + rest ==
      front + (address + seqNo + rest);
    hide FirstWord, U32, Pairs;
    if k < n {
      PairAt(l[..n], address + seqNo + rest, k);
    } else {
      WordInPlace(front, l[n].address.bits, seqNo + rest);
      WordInPlace(front + address, l[n].seqNo, rest);
    }
  }

  lemma PartsRead(f: Byte, r: Byte, n: Byte, s: seq<Byte>, rest: seq<Byte>)
    requires |s| + |rest| >= 8 * Count(n)
    ensures var bytes := [f] + [r] + [n] + s + rest;
      LongEnough(bytes) && RerrOf(bytes) == Rerr(f, r, Inserted(Destinations(s + rest, Count(n))))
  {
    hide Inserted, Destinations;
    var bytes := [f] + [r] + [n] + s + rest;
    assert bytes == [f, r, n] + (s + rest);
    assert bytes[3..] == s + rest;
  }

  /** What is read back of any header: the first destinations, as many as the count byte says. */
  lemma ReadBack(h: Rerr, rest: seq<Byte>)
    ensures LongEnough(RerrBytes(h) + rest)
    ensures RerrOf(RerrBytes(h) + rest) == h.(dests := Inserted(Listing(h.dests)[..Count(DestCount(h))]))
  {
    hide Pairs, Listing, Inserted, Destinations, RerrOf, LongEnough, DestCount;
    var l := Listing(h.dests);
    PairsRead(l, rest, Count(DestCount(h)));
    PartsRead(h.flag, h.reserved, DestCount(h), Pairs(l), rest);
  }

  /** A prefix of the listing makes the same map only when it is the whole listing. */
  lemma PrefixOfListing(m: map<Address, Word>, k: nat)
    requires k <= |m|
    ensures Inserted(Listing(m)[..k]) == m <==> k == |m|
  {
    var l := Listing(m);
    InsertedSize(l[..k]);
    MapOfListing(m);
    hide Listing, Inserted;
    if k == |m| {
      assert l[..k] == l;
    }
  }

  /** A header is read back from its bytes, whatever follows them, exactly when it has at most 255 destinations. */
  lemma RerrRoundTrip(h: Rerr, rest: seq<Byte>)
    ensures LongEnough(RerrBytes(h) + rest)
    ensures RerrOf(RerrBytes(h) + rest) == h <==> |h.dests| <= 255
    ensures |RerrBytes(h)| == SerializedSize(h) <==> |h.dests| <= 255
  {
    hide Listing, Inserted, RerrOf, RerrBytes, LongEnough;
    ReadBack(h, rest);
    PrefixOfListing(h.dests, Count(DestCount(h)));
  }

  /** Bytes are accepted exactly when no address comes twice in them. */
  lemma AcceptedBytes(bytes: seq<Byte>)
    requires LongEnough(bytes)
    ensures |RerrOf(bytes).dests| == Count(bytes[2]) <==> DistinctAddresses(Destinations(bytes[3..], Count(bytes[2])))
  {
    hide Count, Destinations, Inserted;
    InsertedSize(Destinations(bytes[3..], Count(bytes[2])));
  }

  lemma Slices(bytes: seq<Byte>, k: nat)
    requires k + 8 <= |bytes|
    ensures bytes[..k + 8] == bytes[..k] + bytes[k..][..4] + bytes[k + 4..][..4]
  {
  }

  lemma {:induction false} PairsBack(bytes: seq<Byte>, n: nat)
    requires |bytes| >= 8 * n
    ensures Pairs(Destinations(bytes, n)) == bytes[..8 * n]
  {
    if n > 0 {
      var k := 8 * (n - 1);
      PairsBack(bytes, n - 1);
      WordBack(bytes[k..]);
      WordBack(bytes[k + 4..]);
      Slices(bytes, k);
      hide FirstWord, U32;
      assert Destinations(bytes, n)[..n - 1] == Destinations(bytes, n - 1);
    }
  }

  /** The bytes of a header that was read. */
  lemma BytesAgain(bytes: seq<Byte>)
    requires LongEnough(bytes)
    ensures var h := RerrOf(bytes); RerrBytes(h) == bytes[..2] + [DestCount(h)] + Pairs(Listing(h.dests))
  {
    hide Pairs, Listing, Inserted, Destinations, DestCount;
    assert [bytes[0]] + [bytes[1]] == bytes[..2];
  }

  /** The bytes it was read from. */
  lemma BytesRead(bytes: seq<Byte>)
    requires LongEnough(bytes)
    ensures var n := bytes[2]; bytes[..3 + 8 * Count(n)] == bytes[..2] + [n] + Pairs(Destinations(bytes[3..], Count(n)))
  {
    hide Pairs, Destinations, Count;
    var n := Count(bytes[2]);
    PairsBack(bytes[3..], n);
    var used := bytes[..3 + 8 * n];
    assert used[3..] == bytes[3..][..8 * n];
    assert used[..3] == bytes[..2] + [bytes[2]];
    assert used == used[..3] + used[3..];
  }

  lemma SameTail(head: seq<Byte>, c: Byte, c': Byte, s: seq<Byte>, s': seq<Byte>)
    requires |head| == 2 && head + [c] + s == head + [c'] + s'
    ensures s == s'
  {
    assert (head + [c] + s)[3..] == s && (head + [c'] + s')[3..] == s';
  }

  lemma IncreasingFits(l: seq<Destination>)
    requires Increasing(l)
    ensures |Inserted(l)| == |l| && Listing(Inserted(l)) == l
  {
    hide Listing, Inserted;
    InsertedSize(l);
    IncreasingIsDistinct(l);
    ListingOfMap(l);
  }

  lemma RerrOfIncreasing(bytes: seq<Byte>)
    requires LongEnough(bytes) && Increasing(Destinations(bytes[3..], Count(bytes[2])))
    ensures var h := RerrOf(bytes);
      DestCount(h) == bytes[2] && Listing(h.dests) == Destinations(bytes[3..], Count(bytes[2]))
  {
    hide Listing, Inserted, Destinations, Increasing;
    IncreasingFits(Destinations(bytes[3..], Count(bytes[2])));
    SameCount(DestCount(RerrOf(bytes)), bytes[2]);
  }

  /** The header read sends the same bytes again exactly when their addresses were in increasing order. */
  lemma RerrBack(bytes: seq<Byte>)
    requires LongEnough(bytes)
    ensures RerrBytes(RerrOf(bytes)) == bytes[..3 + 8 * Count(bytes[2])] <==>
      Increasing(Destinations(bytes[3..], Count(bytes[2])))
  {
    var l, h := Destinations(bytes[3..], Count(bytes[2])), RerrOf(bytes);
    hide Pairs, Listing, Inserted, Destinations, RerrBytes, RerrOf, Increasing, DestCount;
    BytesRead(bytes);
    BytesAgain(bytes);
    ListingIsSorted(h.dests);
    if Increasing(l) {
      RerrOfIncreasing(bytes);
    }
    if RerrBytes(h) == bytes[..3 + 8 * Count(bytes[2])] {
      SameTail(bytes[..2], DestCount(h), bytes[2], Pairs(Listing(h.dests)), Pairs(l));
      SamePairs(Listing(h.dests), l);
    }
  }

  lemma SamePairs(l: seq<Destination>, m: seq<Destination>)
    requires Pairs(l) == Pairs(m)
    ensures l == m
  {
    PairsRead(l, [], |l|);
    PairsRead(m, [], |m|);
    assert l[..|l|] == l && m[..|m|] == m;
    hide Pairs, Destinations;
  }

  // ----- the equality of headers

  /** `operator==` is equality of headers with at most 255 destinations. */
  lemma EqualsIsEquality(a: Rerr, b: Rerr)
    requires |a.dests| <= 255 && |b.dests| <= 255
    ensures Equals(a, b) <==> a == b
  {
    MapOfListing(a.dests);
    MapOfListing(b.dests);
    hide Listing, Inserted;
    assert Listing(a.dests)[..|a.dests|] == Listing(a.dests) && Listing(b.dests)[..|b.dests|] == Listing(b.dests);
  }

  lemma IncreasingIsDistinct(l: seq<Destination>)
    requires Increasing(l)
    ensures DistinctAddresses(l)
  {
  }

  lemma IncreasingPrefix(l: seq<Destination>, k: nat)
    requires Increasing(l) && k <= |l|
    ensures Increasing(l[..k])
  {
    hide Number;
  }

  lemma EqualsOfPrefix(h: Rerr, l: seq<Destination>)
    requires l == Listing(h.dests)[..Count(DestCount(h))]
    ensures Equals(h, h.(dests := Inserted(l)))
  {
    hide Listing, Inserted, Count, DestCount, Increasing;
    ListingIsSorted(h.dests);
    IncreasingPrefix(Listing(h.dests), Count(DestCount(h)));
    IncreasingFits(l);
    SameCount(DestCount(h.(dests := Inserted(l))), DestCount(h));
  }

  /** Above that it cannot see what a round trip loses. */
  lemma EqualsIsBlind(h: Rerr, rest: seq<Byte>)
    ensures LongEnough(RerrBytes(h) + rest)
    ensures Equals(h, RerrOf(RerrBytes(h) + rest))
  {
    hide Listing, Inserted, RerrOf, RerrBytes, LongEnough, Equals;
    ReadBack(h, rest);
    EqualsOfPrefix(h, Listing(h.dests)[..Count(DestCount(h))]);
  }

  // ----- runs

  datatype Op = Add(dst: Address, seqNo: Word) | Remove | ClearAll

  /** One operation on the destinations; `None` when an assertion stops the program. */
  function Apply(m: map<Address, Word>, op: Op): Option<map<Address, Word>> {
    match op
    case Add(dst, seqNo) => if dst !in m && |m| == 255 then None else Some(Insert(m, dst, seqNo))
    case Remove => Some(if m == map[] then m else m - {Smallest(m)})
    case ClearAll => Some(map[])
  }

  function Run(ops: seq<Op>): Option<map<Address, Word>> {
    if ops == [] then Some(map[])
    else
      match Run(ops[..|ops| - 1])
      case None => None
      case Some(m) => Apply(m, ops[|ops| - 1])
  }

  /** The sequence number of an address after the first `k` operations. */
  function Held(ops: seq<Op>, k: nat, a: Address): Option<Word>
    requires k <= |ops|
  {
    match Run(ops[..k])
    case None => None
    case Some(m) => if a in m then Some(m[a]) else None
  }

  lemma HeldNext(ops: seq<Op>, k: nat, a: Address)
    requires k < |ops| && Held(ops, k + 1, a).Some?
    ensures Held(ops, k, a).Some? ==> Held(ops, k + 1, a) == Held(ops, k, a)
    ensures Held(ops, k, a).None? ==> ops[k].Add? && ops[k].dst == a && Held(ops, k + 1, a) == Some(ops[k].seqNo)
  {
    assert ops[..k + 1][..k] == ops[..k];
  }

  /** However often an address is added, it keeps the sequence number it came in with until it goes. */
  lemma {:induction false} FirstSeqNoStays(ops: seq<Op>, i: nat, j: nat, a: Address)
    requires i < j <= |ops| && Held(ops, i, a).None? && forall k :: i < k <= j ==> Held(ops, k, a).Some?
    ensures ops[i].Add? && ops[i].dst == a && Held(ops, j, a) == Some(ops[i].seqNo)
    decreases j
  {
    hide Held;
    HeldNext(ops, j - 1, a);
    if j > i + 1 {
      FirstSeqNoStays(ops, i, j - 1, a);
    }
  }

  lemma {:induction false} CountStaysInByte(ops: seq<Op>)
    ensures Run(ops).Some? ==> |Run(ops).value| <= 255
  {
    if ops != [] {
      var prefix := ops[..|ops| - 1];
      CountStaysInByte(prefix);
      if Run(prefix).Some? && Run(prefix).value != map[] {
        var m := Run(prefix).value;
        assert (m - {Smallest(m)}).Keys == m.Keys - {Smallest(m)};
      }
    }
  }

  // ----- the place of the no-delete flag

  /** Setting the flag never touches the first bit of the sent byte, where section 5.3 of RFC 3561 draws it: a reader of
      that layout sees the flag as it was set exactly when the first bit already had that value. */
  lemma DrawnFlagSeen(h: Rerr, h': Rerr, f: bool)
    requires SetsOnly(h.flag, h'.flag, 0, f)
    ensures Bit(RerrBytes(h')[0], 7) == Bit(RerrBytes(h)[0], 7)
    ensures Bit(RerrBytes(h')[0], 7) == f <==> Bit(h.flag, 7) == f
    ensures Bit(RerrBytes(h')[0], 0) == f
  {
    assert 7 as bv3 != 0;
    hide Listing, Pairs, DestCount;
  }

  /** A header that starts empty never shows that reader a set flag, however often the flag is set. */
  lemma {:induction false} DrawnFlagStaysClear(flags: seq<Byte>, settings: seq<bool>, k: nat)
    requires |flags| == |settings| + 1 && flags[0] == 0 && k < |flags|
    requires forall i, j :: 0 <= i && j == i + 1 && j < |flags| ==> SetsOnly(flags[i], flags[j], 0, settings[i])
    ensures !Bit(flags[k], 7)
  {
    if k > 0 {
      var before := k - 1;
      DrawnFlagStaysClear(flags, settings, before);
      assert SetsOnly(flags[before], flags[k], 0, settings[before]);
    }
  }
}

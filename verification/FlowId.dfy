/** Flow identifiers: utils.hpp's `GetFlowInt` family and the simulator's host addresses, as unsigned arithmetic. */
module FlowId {
  import opened TraceFilter

  const U16 := 0x1_0000
  const U32 := 0x1_0000_0000

  /** `node_id_to_ip`, in 32-bit arithmetic. */
  function NodeIdToIp(id: nat): nat {
    (0x0b000001 + id / 256 * 0x10000 + id % 256 * 0x100) % U32
  }

  /** `ip_to_node_id`: `(ip >> 8) & 0xffff`. */
  function IpToNodeId(ip: nat): nat {
    ip / 256 % U16
  }

  /** `GetFlowInt(sip, dip, sport, dport)`: four 16-bit fields side by side. */
  function FlowInt(sip: nat, dip: nat, sport: nat, dport: nat): nat {
    ((sip / 256 % U16 * U16 + dip / 256 % U16) * U16 + sport) * U16 + dport
  }

  /** The protocols whose records carry ports: TCP, UDP, ACK, NACK and QpAv. */
  predicate HasPorts(r: Record) {
    r.l3Prot == 0x6 || r.l3Prot == 0x11 || r.l3Prot == 0xFC || r.l3Prot == 0xFD || r.l3Prot == 0x0
  }

  /** `GetFlowInt(tr)`; the three port views of a record are the same bytes. */
  function GetFlowInt(r: Record): nat {
    if HasPorts(r) then FlowInt(r.sip, r.dip, r.sport, r.dport) else FlowInt(r.sip, r.dip, 0, 0)
  }

  /** `GetReverseFlowInt(tr)`. */
  function GetReverseFlowInt(r: Record): nat {
    if HasPorts(r) then FlowInt(r.dip, r.sip, r.dport, r.sport) else FlowInt(r.dip, r.sip, 0, 0)
  }

  predicate IsAck(r: Record) {
    r.l3Prot == 0xFC || r.l3Prot == 0xFD
  }

  /** `GetStandardFlowInt(tr)`. */
  function GetStandardFlowInt(r: Record): nat {
    if IsAck(r) then GetReverseFlowInt(r) else GetFlowInt(r)
  }

  lemma IpSplits(id: nat)
    ensures 0x0b000001 + id / 256 * 0x10000 + id % 256 * 0x100 == 256 * (0x0b0000 + id) + 1
  {
  }

  lemma WrapThenShift(m: nat)
    ensures (256 * m + 1) % U32 / 256 == m % 0x100_0000
  {
    var q, low := m / 0x100_0000, m % 0x100_0000;
    assert 256 * m + 1 == U32 * q + (256 * low + 1);
    ShiftOut(256 * low + 1, q);
  }

  lemma {:induction false} ShiftOut(low: nat, q: nat)
    requires low < U32
    ensures (U32 * q + low) % U32 == low
  {
    if q > 0 {
      ShiftOut(low, q - 1);
      assert U32 * q + low == U32 * (q - 1) + low + U32;
    }
  }

  /** Reading a node id back from its address keeps its low 16 bits, so it is the id exactly below 65536. */
  lemma NodeIdRoundTrip(id: nat)
    ensures IpToNodeId(NodeIdToIp(id)) == id % U16
    ensures IpToNodeId(NodeIdToIp(id)) == id <==> id < U16
  {
    var m := 0x0b0000 + id;
    IpSplits(id);
    WrapThenShift(m);
    LowSixteen(id);
  }

  lemma LowSixteen(id: nat)
    ensures (0x0b0000 + id) % 0x100_0000 % U16 == id % U16
    ensures id % U16 == id <==> id < U16
  {
    var m := 0x0b0000 + id;
    assert m == m / 0x100_0000 * 0x100_0000 + m % 0x100_0000;
    LowDigit(m % 0x100_0000, m / 0x100_0000 * 256);
    LowDigit(id, 11);
  }

  lemma {:induction false} LowDigit(low: nat, q: nat)
    ensures (low + q * U16) % U16 == low % U16
  {
    if q > 0 {
      LowDigit(low, q - 1);
      assert low + q * U16 == low + (q - 1) * U16 + U16;
    }
  }

  lemma SplitDigits(a: nat, b: nat, c: nat, d: nat)
    requires b < U16 && d < U16 && a * U16 + b == c * U16 + d
    ensures a == c && b == d
  {
  }

  /** Different flows between hosts with ids below 65536 have different flow numbers. */
  lemma FlowIntInjective(src: nat, dst: nat, sport: nat, dport: nat, src': nat, dst': nat, sport': nat, dport': nat)
    requires src < U16 && dst < U16 && sport < U16 && dport < U16
    requires src' < U16 && dst' < U16 && sport' < U16 && dport' < U16
    requires FlowInt(NodeIdToIp(src), NodeIdToIp(dst), sport, dport) ==
      FlowInt(NodeIdToIp(src'), NodeIdToIp(dst'), sport', dport')
    ensures src == src' && dst == dst' && sport == sport' && dport == dport'
  {
    NodeIdRoundTrip(src);
    NodeIdRoundTrip(dst);
    NodeIdRoundTrip(src');
    NodeIdRoundTrip(dst');
    hide NodeIdToIp;
    SplitDigits((src * U16 + dst) * U16 + sport, dport, (src' * U16 + dst') * U16 + sport', dport');
    SplitDigits(src * U16 + dst, sport, src' * U16 + dst', sport');
    SplitDigits(src, dst, src', dst');
  }

  /** The host with id `id` below 65536 has address 11.(id / 256).(id mod 256).1. */
  lemma AddressOctets(id: nat)
    requires id < 65536
    ensures NodeIdToIp(id) == 11 * 0x100_0000 + id / 256 * 0x1_0000 + id % 256 * 0x100 + 1 && id / 256 < 256
  {
  }

  /** The flow number holds the two ids and the two ports in 16 bits each, from the source id down. */
  lemma FlowIntFields(src: nat, dst: nat, sport: nat, dport: nat)
    requires src < 65536 && dst < 65536
    ensures FlowInt(NodeIdToIp(src), NodeIdToIp(dst), sport, dport)
      == src * 0x1_0000_0000_0000 + dst * 0x1_0000_0000 + sport * 0x1_0000 + dport
  {
    NodeIdRoundTrip(src);
    NodeIdRoundTrip(dst);
    hide NodeIdToIp;
  }

  /** The three flow numbers of a record between hosts `src` and `dst`: with its ports for TCP, UDP, ACK, NACK and QpAv,
      without ports otherwise; the reverse one exchanges hosts and ports, and the standard one reverses ACK and NACK. */
  lemma RecordFlowInts(r: Record, src: nat, dst: nat)
    requires src < 65536 && dst < 65536 && r.sip == NodeIdToIp(src) && r.dip == NodeIdToIp(dst)
    ensures var ports := r.l3Prot == 6 || r.l3Prot == 17 || r.l3Prot == 252 || r.l3Prot == 253 || r.l3Prot == 0;
      var sport, dport := if ports then r.sport else 0, if ports then r.dport else 0;
      var there := src * 0x1_0000_0000_0000 + dst * 0x1_0000_0000 + sport * 0x1_0000 + dport;
      var back := dst * 0x1_0000_0000_0000 + src * 0x1_0000_0000 + dport * 0x1_0000 + sport;
      && GetFlowInt(r) == there && GetReverseFlowInt(r) == back
      && GetStandardFlowInt(r) == if r.l3Prot == 252 || r.l3Prot == 253 then back else there
  {
    FlowIntFields(src, dst, r.sport, r.dport);
    FlowIntFields(dst, src, r.dport, r.sport);
    FlowIntFields(src, dst, 0, 0);
    FlowIntFields(dst, src, 0, 0);
    hide NodeIdToIp, FlowInt;
  }
}

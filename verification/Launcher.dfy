/** Reading the flow file and starting its flows (rdma-simulator.cc). */
module Launcher {
  import opened Wrappers
  import FlowGen

  /** One line of the flow file; times in nanoseconds. */
  datatype FlowInput = FlowInput(src: nat, dst: nat, startTime: int)

  /** The hosts of a flow: the keys of `portNumder`. */
  datatype Pair = Pair(src: nat, dst: nat)

  /** A client started for the flow with index `idx`. */
  datatype Start = Start(idx: nat, at: int, port: nat)

  const FIRST_PORT := 10000
  const PORTS := 0x1_0000

  // ----- what launching should do

  /** The number of earlier flows of the same host pair. */
  function EarlierFlows(file: seq<FlowInput>, i: nat, src: nat, dst: nat): nat
    requires i <= |file|
  {
    if i == 0 then 0
    else EarlierFlows(file, i - 1, src, dst) + if file[i - 1].src == src && file[i - 1].dst == dst then 1 else 0
  }

  /** The value of a 16-bit counter that began at 10000 and was incremented `n` times. */
  function PortNumber(n: nat): (port: nat)
    ensures port < PORTS
  {
    (FIRST_PORT + n) % PORTS
  }

  /** The port of `pair` after the first `i` flows. */
  function PortAfter(file: seq<FlowInput>, i: nat, pair: Pair): nat
    requires i <= |file|
  {
    PortNumber(EarlierFlows(file, i, pair.src, pair.dst))
  }

  function PortOf(file: seq<FlowInput>, i: nat): nat
    requires i < |file|
  {
    PortAfter(file, i, Pair(file[i].src, file[i].dst))
  }

  /** The first `n` flows, each started once, in order and at its own time. */
  function Starts(file: seq<FlowInput>, n: nat): (s: seq<Start>)
    requires n <= |file|
    ensures |s| == n
  {
    seq(n, i requires 0 <= i < n => Start(i, file[i].startTime, PortOf(file, i)))
  }

  /** Start times never run back, nor does the first lie before `now`. */
  ghost predicate InOrder(file: seq<FlowInput>, now: int) {
    && (file != [] ==> now <= file[0].startTime)
    && (forall i, j :: 0 <= i && j == i + 1 && j < |file| ==> file[i].startTime <= file[j].startTime)
  }

  class Launcher {
    const file: seq<FlowInput>
    /** `flow_input`: its index, and the line that was read last. */
    var idx: nat
    var input: FlowInput
    /** `portNumder`, 16 bits wide. */
    var portNumber: map<Pair, nat>
    /** When the scheduled call of `ScheduleFlowInputs` is due. */
    var scheduled: Option<int>
    /** The clients started so far. */
    var started: seq<Start>

    /** `idx` flows have been started as they should be, and the next line has been read. */
    ghost predicate Valid()
      reads this
    {
      && idx <= |file| && started == Starts(file, idx)
      && (idx < |file| ==> input == file[idx])
      && PortsOk(file, idx, portNumber)
    }

    constructor (file: seq<FlowInput>)
      ensures this.file == file && Valid() && idx == 0 && scheduled == None
    {
      this.file := file;
      idx, scheduled, started, portNumber := 0, None, [], map[];
      input := if file != [] then file[0] else FlowInput(0, 0, 0);
    }

    method ReadFlowInput()
      requires idx <= |file|
      modifies `input
      ensures idx < |file| ==> input == file[idx]
    {
      if idx < |file| {
        input := file[idx];
      }
    }

    /** `Simulator::Schedule` with a delay; a negative delay is an error. */
    method Schedule(delay: int, now: int) returns (ok: bool)
      modifies `scheduled
      ensures ok <==> delay >= 0
      ensures scheduled == if ok then Some(now + delay) else old(scheduled)
    {
      ok := delay >= 0;
      if ok {
        scheduled := Some(now + delay);
      }
    }

    /** Starts all flows due now, then schedules itself for the next one; `false` when that one lies in the past. */
    method ScheduleFlowInputs(now: int) returns (ok: bool)
      requires Valid() && idx < |file| && file[idx].startTime == now
      modifies this
      ensures Valid() && old(idx) < idx
      ensures forall i :: old(idx) <= i < idx ==> file[i].startTime == now
      ensures idx < |file| ==> file[idx].startTime != now && (ok <==> now < file[idx].startTime)
      ensures idx == |file| ==> ok && scheduled == None
      ensures ok && idx < |file| ==> scheduled == Some(file[idx].startTime)
    {
      ghost var first := idx;
      scheduled := None;
      while idx < |file| && input.startTime == now
        invariant Valid() && first <= idx && (idx == first ==> input.startTime == now) && scheduled == None
        invariant forall i :: first <= i < idx ==> file[i].startTime == now
        decreases |file| - idx
      {
        StartOne(now);
      }
      ok := true;
      if idx < |file| {
        ok := Schedule(input.startTime - now, now);
      }
    }

    method StartOne(now: int)
      requires Valid() && idx < |file| && input.startTime == now
      modifies `portNumber, `started, `idx, `input
      ensures Valid() && idx == old(idx) + 1
    {
      var pair := Pair(input.src, input.dst);
      var port := NextPort(portNumber, pair);
      PortsGoOn(file, idx, portNumber);
      StartsNext(file, idx);
      portNumber := portNumber[pair := (port + 1) % PORTS];
      started := started + [Start(idx, now, port)];
      idx := idx + 1;
      ReadFlowInput();
    }
  }

  /** The port a pair gets next; all pairs begin at 10000. */
  function NextPort(ports: map<Pair, nat>, pair: Pair): nat {
    if pair in ports then ports[pair] else FIRST_PORT
  }

  /** Every pair gets next the port that follows from the first `i` flows. */
  ghost predicate PortsOk(file: seq<FlowInput>, i: nat, ports: map<Pair, nat>)
    requires i <= |file|
  {
    forall p :: NextPort(ports, p) == PortAfter(file, i, p)
  }

  lemma NextNumber(n: nat)
    ensures (PortNumber(n) + 1) % PORTS == PortNumber(n + 1)
  {
  }

  lemma PortsGoOn(file: seq<FlowInput>, i: nat, ports: map<Pair, nat>)
    requires i < |file| && PortsOk(file, i, ports)
    ensures var pair := Pair(file[i].src, file[i].dst);
      PortsOk(file, i + 1, ports[pair := (NextPort(ports, pair) + 1) % PORTS])
  {
    var pair := Pair(file[i].src, file[i].dst);
    var next := ports[pair := (NextPort(ports, pair) + 1) % PORTS];
    hide EarlierFlows, PortNumber;
    NextNumber(EarlierFlows(file, i, pair.src, pair.dst));
    forall p: Pair
      ensures NextPort(next, p) == PortAfter(file, i + 1, p)
    {
      assert NextPort(ports, p) == PortAfter(file, i, p);
      OneMore(file, i, p);
    }
  }

  lemma StartsNext(file: seq<FlowInput>, n: nat)
    requires n < |file|
    ensures Starts(file, n + 1) == Starts(file, n) + [Start(n, file[n].startTime, PortOf(file, n))]
  {
  }

  lemma OneMore(file: seq<FlowInput>, i: nat, p: Pair)
    requires i < |file|
    ensures EarlierFlows(file, i + 1, p.src, p.dst) == EarlierFlows(file, i, p.src, p.dst) +
      if p == Pair(file[i].src, file[i].dst) then 1 else 0
  {
  }

  /** The simulation from time `now` until nothing is scheduled any more. All flows are started, each once, in order and
      at its own time, exactly when the times of the file never run back; otherwise a negative delay stops the
      program. */
  method Launch(file: seq<FlowInput>, now: int) returns (result: Option<seq<Start>>)
    ensures result.Some? <==> InOrder(file, now)
    ensures result.Some? ==> result.value == Starts(file, |file|)
  {
    var launcher := new Launcher(file);
    if |file| == 0 {
      return Some(launcher.started);
    }
    launcher.ReadFlowInput();
    var ok := launcher.Schedule(launcher.input.startTime - now, now);
    if !ok {
      return None;
    }
    while launcher.scheduled.Some?
      invariant fresh(launcher) && launcher.Valid() && launcher.file == file && OrderedUpTo(file, now, launcher.idx)
      invariant launcher.scheduled == if launcher.idx < |file| then Some(file[launcher.idx].startTime) else None
      decreases |file| - launcher.idx
    {
      ghost var before := launcher.idx;
      ok := launcher.ScheduleFlowInputs(launcher.scheduled.value);
      OrderGoesOn(file, now, before, launcher.idx);
      if !ok {
        return None;
      }
    }
    return Some(launcher.started);
  }

  /** The first `n` flows and the one after them are in order. */
  ghost predicate OrderedUpTo(file: seq<FlowInput>, now: int, n: nat) {
    && (file != [] ==> now <= file[0].startTime)
    && (forall i, j :: 0 <= i && j == i + 1 && j < |file| && j <= n ==> file[i].startTime <= file[j].startTime)
  }

  /** After a call that started the flows from `a` to `b`, the order holds up to `b` exactly when flow `b` is not
      earlier. */
  lemma OrderGoesOn(file: seq<FlowInput>, now: int, a: nat, b: nat)
    requires a < b <= |file| && OrderedUpTo(file, now, a)
    requires forall i :: a <= i < b ==> file[i].startTime == file[a].startTime
    ensures b == |file| || file[a].startTime <= file[b].startTime ==> OrderedUpTo(file, now, b)
    ensures b < |file| && file[b].startTime < file[a].startTime ==> !InOrder(file, now)
  {
    var last := b - 1;
    assert file[last].startTime == file[a].startTime;
  }

  // ----- ports

  lemma {:induction false} EarlierFlowsRise(file: seq<FlowInput>, i: nat, j: nat, src: nat, dst: nat)
    requires i <= j <= |file|
    ensures EarlierFlows(file, i, src, dst) <= EarlierFlows(file, j, src, dst)
    ensures i < j && file[i].src == src && file[i].dst == dst ==>
      EarlierFlows(file, i, src, dst) < EarlierFlows(file, j, src, dst)
    decreases j
  {
    if i < j {
      EarlierFlowsRise(file, i, j - 1, src, dst);
    }
  }

  lemma SamePort(a: nat, b: nat)
    requires a < b
    ensures PortNumber(a) == PortNumber(b) <==> (b - a) % PORTS == 0
    ensures b < PORTS ==> PortNumber(a) != PortNumber(b)
  {
    SameRemainder(FIRST_PORT + a, FIRST_PORT + b);
  }

  lemma {:induction false} SameRemainder(x: nat, y: nat)
    requires x < y
    ensures x % PORTS == y % PORTS <==> (y - x) % PORTS == 0
    ensures y - x < PORTS ==> x % PORTS != y % PORTS
    decreases y
  {
    if x < y - PORTS {
      SameRemainder(x, y - PORTS);
      OneTurn(y - PORTS);
      OneTurn(y - PORTS - x);
    } else {
      var q, r := x / PORTS, x % PORTS;
      assert x == PORTS * q + r;
    }
  }

  lemma OneTurn(n: nat)
    ensures (n + PORTS) % PORTS == n % PORTS
  {
  }

  /** Two flows of a host pair share a port exactly when a multiple of 65536 flows of the pair lies between them; so the
      first 65536 flows of each pair have distinct ports. */
  lemma PortsOfAPair(file: seq<FlowInput>, i: nat, j: nat)
    requires i < j < |file| && file[i].src == file[j].src && file[i].dst == file[j].dst
    ensures var src, dst := file[i].src, file[i].dst;
      var a, b := EarlierFlows(file, i, src, dst), EarlierFlows(file, j, src, dst);
      && a < b && (PortOf(file, i) == PortOf(file, j) <==> (b - a) % PORTS == 0)
      && (b < PORTS ==> PortOf(file, i) != PortOf(file, j))
  {
    hide EarlierFlows, PortNumber;
    EarlierFlowsRise(file, i, j, file[i].src, file[i].dst);
    SamePort(EarlierFlows(file, i, file[i].src, file[i].dst), EarlierFlows(file, j, file[i].src, file[i].dst));
  }

  // ----- from the generator to the launcher

  /** The lines of a generated file. */
  function Lines(flows: seq<FlowGen.Flow>): (file: seq<FlowInput>)
    ensures |file| == |flows|
    ensures forall i :: 0 <= i < |file| ==>
      file[i].src == flows[i].src && file[i].dst == flows[i].dst && file[i].startTime == flows[i].t
  {
    seq(|flows|, i requires 0 <= i < |flows| => FlowInput(flows[i].src, flows[i].dst, flows[i].t))
  }

  lemma GeneratedIsInOrder(nhost: nat, d: FlowGen.Draws, end: real, heap: set<FlowGen.Entry>, flows: seq<FlowGen.Flow>,
                           now: int)
    requires FlowGen.Merging(nhost, d, end, heap, flows) && now <= FlowGen.BASE_T
    ensures InOrder(Lines(flows), now)
  {
    if flows != [] {
      assert FlowGen.Proper(flows[0], nhost);
    }
    forall i, j | 0 <= i && j == i + 1 && j < |flows|
      ensures flows[i].t <= flows[j].t
    {
      assert FlowGen.Before(FlowGen.KeyOf(flows[i]), FlowGen.KeyOf(flows[j]));
    }
  }

  /** A generated file always launches completely. */
  method GenerateAndLaunch(nhost: nat, d: FlowGen.Draws, end: real, rounds: nat, now: int)
    returns (flows: seq<FlowGen.Flow>, heap: set<FlowGen.Entry>, started: seq<Start>)
    requires FlowGen.HostsDrawn(nhost, d) && now <= FlowGen.BASE_T
    ensures FlowGen.Merging(nhost, d, end, heap, flows)
    ensures started == Starts(Lines(flows), |flows|)
  {
    flows, heap := FlowGen.Generate(nhost, d, end, rounds);
    GeneratedIsInOrder(nhost, d, end, heap, flows, now);
    var result := Launch(Lines(flows), now);
    started := result.value;
  }

  // ----- the starts, number by number

  /** The earlier flows of the same pair of hosts. */
  ghost function EarlierOf(file: seq<FlowInput>, i: nat, src: nat, dst: nat): set<nat>
    requires i <= |file|
  {
    set j: nat | 0 <= j < i && file[j].src == src && file[j].dst == dst
  }

  lemma {:induction false} EarlierFlowsCount(file: seq<FlowInput>, i: nat, src: nat, dst: nat)
    requires i <= |file|
    ensures EarlierFlows(file, i, src, dst) == |EarlierOf(file, i, src, dst)|
  {
    if i == 0 {
      assert EarlierOf(file, 0, src, dst) == {};
    } else {
      EarlierFlowsCount(file, i - 1, src, dst);
      assert EarlierOf(file, i, src, dst) == EarlierOf(file, i - 1, src, dst)
        + if file[i - 1].src == src && file[i - 1].dst == dst then {i - 1} else {};
    }
  }

  /** The `i`-th start: flow `i` at its own time, on port 10000 plus the number of earlier flows of its pair, 16 bits
      wide. */
  lemma StartOfFlow(file: seq<FlowInput>, n: nat, i: nat)
    requires i < n <= |file|
    ensures var s := Starts(file, n)[i];
      && s.idx == i && s.at == file[i].startTime
      && s.port == (10000 + |EarlierOf(file, i, file[i].src, file[i].dst)|) % 65536
  {
    EarlierFlowsCount(file, i, file[i].src, file[i].dst);
  }
}

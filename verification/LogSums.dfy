/**
 What each total of the aggregator is a sum of, in terms of the logs alone
 (aggregator.go): which logs count for a pair and in which direction, which
 port names the service, and which minute they fall in.
 */
module LogSums {
  import opened Strings
  import opened Aggregator

  function Bytes(logs: seq<FlowLog>, counts: FlowLog -> bool): int {
    if logs == [] then 0
    else
      var l := logs[|logs| - 1];
      Bytes(logs[..|logs| - 1], counts) + if counts(l) then l.tx else 0
  }

  function Packets(logs: seq<FlowLog>, counts: FlowLog -> bool): int {
    if logs == [] then 0
    else
      var l := logs[|logs| - 1];
      Packets(logs[..|logs| - 1], counts) + if counts(l) then l.pkts else 0
  }

  function Count(logs: seq<FlowLog>, counts: FlowLog -> bool): int {
    if logs == [] then 0
    else Count(logs[..|logs| - 1], counts) + if counts(logs[|logs| - 1]) then 1 else 0
  }

  predicate InMinute(l: FlowLog, b: int) {
    b == (if l.at >= 0 then l.at / 60 else -((-l.at) / 60)) * 60
  }

  /** From the pair's first node to its second. */
  function Forth(s: PairSlot): FlowLog -> bool {
    (l: FlowLog) => InMinute(l, s.bucket) && l.traffic == s.traffic && l.src == s.nodeA && l.dst == s.nodeB
  }

  /** From its second node to its first. A device that talks to itself has no way back. */
  function Back(s: PairSlot): FlowLog -> bool {
    (l: FlowLog) => InMinute(l, s.bucket) && l.traffic == s.traffic && l.src == s.nodeB && l.dst == s.nodeA
      && l.src != l.dst
  }

  function Either(s: PairSlot): FlowLog -> bool {
    (l: FlowLog) => Forth(s)(l) || Back(s)(l)
  }

  /** The port that names the service: the destination's unless only the source's is below the ephemeral range. */
  predicate Serves(l: FlowLog, protocol: int, port: int) {
    l.traffic != "physical" && l.protocol == protocol && port > 0
    && if l.dstPort < 32768 || l.srcPort <= 0 || l.srcPort >= 32768 then port == l.dstPort else port == l.srcPort
  }

  function WithProtocol(counts: FlowLog -> bool, protocol: int): FlowLog -> bool {
    (l: FlowLog) => counts(l) && l.protocol == protocol
  }

  function WithService(counts: FlowLog -> bool, protocol: int, port: int): FlowLog -> bool {
    (l: FlowLog) => counts(l) && Serves(l, protocol, port)
  }

  /**
   Pairs are kept under their smaller id first, so a log is booked on a pair
   exactly when it ran between its nodes.
   */
  lemma SlotIs(l: FlowLog, s: PairSlot)
    requires !StringLess(s.nodeB, s.nodeA)
    ensures SlotOf(l) == s && !IsReverse(l) <==> Forth(s)(l)
    ensures SlotOf(l) == s && IsReverse(l) <==> Back(s)(l)
    ensures SlotOf(l) == s <==> Either(s)(l)
  {
    StringTrichotomy(l.src, l.dst);
    StringTrichotomy(s.nodeA, s.nodeB);
  }

  lemma ServiceIs(l: FlowLog, protocol: int, port: int)
    ensures Serves(l, protocol, port) <==> HasPort(l) && l.protocol == protocol && ServicePort(l) == port
  {
  }

  /** Each counter of a pair sums the logs that run its way. */
  lemma {:induction false} PairsAreLogSums(logs: seq<FlowLog>, s: PairSlot)
    requires !StringLess(s.nodeB, s.nodeA)
    ensures var t := Aggregated(logs).pairs;
            && At(t.tx, s) == Bytes(logs, Forth(s)) && At(t.rx, s) == Bytes(logs, Back(s))
            && At(t.txPkts, s) == Packets(logs, Forth(s)) && At(t.rxPkts, s) == Packets(logs, Back(s))
            && At(t.flows, s) == Count(logs, Either(s))
  {
    hide At, Forth, Back, Either;
    if logs == [] {
      NoSlot(s);
    } else {
      var front, l := logs[..|logs| - 1], logs[|logs| - 1];
      PairsAreLogSums(front, s);
      SlotIs(l, s);
      var t, pair, rev := Aggregated(front).pairs, SlotOf(l), IsReverse(l);
      hide SlotOf, IsReverse, MinuteOf, Bump, HasPort, ServicePort;
      AtBump(t.tx, true, pair, if rev then 0 else l.tx, s);
      AtBump(t.rx, true, pair, if rev then l.tx else 0, s);
      AtBump(t.txPkts, true, pair, if rev then 0 else l.pkts, s);
      AtBump(t.rxPkts, true, pair, if rev then l.pkts else 0, s);
      AtBump(t.flows, true, pair, 1, s);
    }
  }

  /** A pair has a row exactly when a log ran between its nodes. */
  lemma {:induction false} PairsAreLogged(logs: seq<FlowLog>, s: PairSlot)
    requires !StringLess(s.nodeB, s.nodeA)
    ensures s in Aggregated(logs).pairs.flows <==> exists l :: l in logs && Either(s)(l)
  {
    hide *;
    if logs == [] {
      NothingLogged(s);
    } else {
      var front, l := logs[..|logs| - 1], logs[|logs| - 1];
      assert logs == front + [l];
      PairsAreLogged(front, s);
      SlotIs(l, s);
      FlowKeys(Aggregated(front).pairs, l);
      SomeSnoc(front, l, Either(s));
      LastStep(logs);
    }
  }

  lemma NothingLogged(s: PairSlot)
    ensures s !in Aggregated([]).pairs.flows
  {
  }

  lemma LastStep(logs: seq<FlowLog>)
    requires logs != []
    ensures Aggregated(logs).pairs == PairsStep(Aggregated(logs[..|logs| - 1]).pairs, logs[|logs| - 1])
  {
  }

  lemma SomeSnoc(front: seq<FlowLog>, l: FlowLog, p: FlowLog -> bool)
    ensures (exists x :: x in front + [l] && p(x)) <==> p(l) || exists x :: x in front && p(x)
  {
    assert (front + [l])[|front|] == l;
    assert forall x :: x in front ==> x in front + [l];
  }

  lemma FlowKeys(t: PairTotals, l: FlowLog)
    ensures PairsStep(t, l).flows.Keys == t.flows.Keys + {SlotOf(l)}
  {
    hide SlotOf, IsReverse, HasPort, ServicePort;
  }

  lemma NoSlot<K>(k: K)
    ensures At(map[], k) == 0
  {
  }

  /** Each protocol and port counter of a pair sums the logs of that protocol, or of that service. */
  lemma {:induction false} PairPartsAreLogSums(logs: seq<FlowLog>, s: PairSlot, protocol: int, port: int)
    requires !StringLess(s.nodeB, s.nodeA)
    ensures var t, p, q := Aggregated(logs).pairs, ProtoSlot(s, protocol), PortSlot(s, protocol, port);
            && At(t.proto, p) == Bytes(logs, WithProtocol(Either(s), protocol))
            && At(t.txProto, p) == Bytes(logs, WithProtocol(Forth(s), protocol))
            && At(t.rxProto, p) == Bytes(logs, WithProtocol(Back(s), protocol))
            && At(t.ports, q) == Bytes(logs, WithService(Either(s), protocol, port))
            && At(t.txPorts, q) == Bytes(logs, WithService(Forth(s), protocol, port))
            && At(t.rxPorts, q) == Bytes(logs, WithService(Back(s), protocol, port))
  {
    hide At, Forth, Back, Either, Serves;
    var p, q := ProtoSlot(s, protocol), PortSlot(s, protocol, port);
    if logs == [] {
      NoSlot(p);
      NoSlot(q);
    } else {
      var front, l := logs[..|logs| - 1], logs[|logs| - 1];
      PairPartsAreLogSums(front, s, protocol, port);
      SlotIs(l, s);
      ServiceIs(l, protocol, port);
      var t, rev, has := Aggregated(front).pairs, IsReverse(l), HasPort(l);
      var x, y := ProtoSlot(SlotOf(l), l.protocol), PortSlot(SlotOf(l), l.protocol, ServicePort(l));
      hide SlotOf, IsReverse, MinuteOf, HasPort, ServicePort, Bump;
      AtBump(t.proto, true, x, l.tx, p);
      AtBump(t.txProto, !rev, x, l.tx, p);
      AtBump(t.rxProto, rev, x, l.tx, p);
      AtBump(t.ports, has, y, l.tx, q);
      AtBump(t.txPorts, has && !rev, y, l.tx, q);
      AtBump(t.rxPorts, has && rev, y, l.tx, q);
    }
  }

  function Within(b: int): FlowLog -> bool {
    (l: FlowLog) => InMinute(l, b)
  }

  /** Traffic users sent; physical logs carry the same bytes again. */
  function User(b: int): FlowLog -> bool {
    (l: FlowLog) => InMinute(l, b) && l.traffic != "physical"
  }

  function NotTcpOrUdp(b: int): FlowLog -> bool {
    (l: FlowLog) => User(b)(l) && l.protocol != 6 && l.protocol != 17
  }

  function OfType(b: int, traffic: string): FlowLog -> bool {
    (l: FlowLog) => InMinute(l, b) && l.traffic == traffic
  }

  /** Each number of a minute's traffic stats sums that minute's logs. */
  lemma StatsAreLogSums(logs: seq<FlowLog>, b: int, protocol: int, port: int)
    ensures var t := Aggregated(logs).stats;
            && At(t.protocols.tcp, b) == Bytes(logs, WithProtocol(User(b), 6))
            && At(t.protocols.udp, b) == Bytes(logs, WithProtocol(User(b), 17))
            && At(t.protocols.other, b) == Bytes(logs, NotTcpOrUdp(b))
            && At(t.types.virtual, b) == Bytes(logs, OfType(b, "virtual"))
            && At(t.types.exit, b) == Bytes(logs, OfType(b, "exit"))
            && At(t.types.subnet, b) == Bytes(logs, OfType(b, "subnet"))
            && At(t.types.physical, b) == Bytes(logs, OfType(b, "physical"))
            && At(t.flows, b) == Count(logs, Within(b))
            && At(t.ports, StatPort(b, protocol, port)) == Bytes(logs, WithService(Within(b), protocol, port))
  {
    ProtocolsAreLogSums(logs, b);
    TypesAreLogSums(logs, b);
    ServicesAreLogSums(logs, b, protocol, port);
  }

  lemma {:induction false} ProtocolsAreLogSums(logs: seq<FlowLog>, b: int)
    ensures var t := Aggregated(logs).stats.protocols;
            && At(t.tcp, b) == Bytes(logs, WithProtocol(User(b), 6))
            && At(t.udp, b) == Bytes(logs, WithProtocol(User(b), 17))
            && At(t.other, b) == Bytes(logs, NotTcpOrUdp(b))
  {
    hide At;
    if logs == [] {
      NoSlot(b);
    } else {
      var front, l := logs[..|logs| - 1], logs[|logs| - 1];
      ProtocolsAreLogSums(front, b);
      MinuteIs(l, b);
      var t, m, user := Aggregated(front).stats.protocols, MinuteOf(l), IsUserTraffic(l);
      assert User(b)(l) <==> user && m == b;
      hide MinuteOf, InMinute, Bump, TypesStep, PairsStep, NodesStep, Seen;
      AtBump(t.tcp, user && l.protocol == 6, m, l.tx, b);
      AtBump(t.udp, user && l.protocol == 17, m, l.tx, b);
      AtBump(t.other, user && l.protocol != 6 && l.protocol != 17, m, l.tx, b);
    }
  }

  lemma {:induction false} TypesAreLogSums(logs: seq<FlowLog>, b: int)
    ensures var t := Aggregated(logs).stats.types;
            && At(t.virtual, b) == Bytes(logs, OfType(b, "virtual"))
            && At(t.exit, b) == Bytes(logs, OfType(b, "exit"))
            && At(t.subnet, b) == Bytes(logs, OfType(b, "subnet"))
            && At(t.physical, b) == Bytes(logs, OfType(b, "physical"))
  {
    hide At;
    if logs == [] {
      NoSlot(b);
    } else {
      var front, l := logs[..|logs| - 1], logs[|logs| - 1];
      TypesAreLogSums(front, b);
      MinuteIs(l, b);
      var t, m := Aggregated(front).stats.types, MinuteOf(l);
      hide MinuteOf, InMinute, Bump, ProtocolsStep, PairsStep, NodesStep, Seen;
      AtBump(t.virtual, l.traffic == "virtual", m, l.tx, b);
      AtBump(t.exit, l.traffic == "exit", m, l.tx, b);
      AtBump(t.subnet, l.traffic == "subnet", m, l.tx, b);
      AtBump(t.physical, l.traffic == "physical", m, l.tx, b);
    }
  }

  lemma {:induction false} ServicesAreLogSums(logs: seq<FlowLog>, b: int, protocol: int, port: int)
    ensures var t := Aggregated(logs).stats;
            && At(t.flows, b) == Count(logs, Within(b))
            && At(t.ports, StatPort(b, protocol, port)) == Bytes(logs, WithService(Within(b), protocol, port))
  {
    hide At, Serves;
    var q := StatPort(b, protocol, port);
    if logs == [] {
      NoSlot(b);
      NoSlot(q);
    } else {
      var front, l := logs[..|logs| - 1], logs[|logs| - 1];
      ServicesAreLogSums(front, b, protocol, port);
      ServiceIs(l, protocol, port);
      MinuteIs(l, b);
      var t, m, has, y := Aggregated(front).stats, MinuteOf(l), HasPort(l),
          StatPort(MinuteOf(l), l.protocol, ServicePort(l));
      hide MinuteOf, HasPort, ServicePort, Bump, InMinute, ProtocolsStep, TypesStep, PairsStep, NodesStep, Seen;
      AtBump(t.flows, true, m, 1, b);
      AtBump(t.ports, has, y, l.tx, q);
    }
  }

  lemma MinuteIs(l: FlowLog, b: int)
    ensures InMinute(l, b) <==> MinuteOf(l) == b
  {
  }

  function SentBy(b: int, n: string): FlowLog -> bool {
    (l: FlowLog) => User(b)(l) && l.src == n
  }

  function ReceivedBy(b: int, n: string): FlowLog -> bool {
    (l: FlowLog) => User(b)(l) && l.dst == n && l.src != n
  }

  /** A node's TX is what it sent, its RX what others sent it, and the bandwidth is what all sent. */
  lemma {:induction false} NodesAreLogSums(logs: seq<FlowLog>, b: int, n: string)
    ensures var t := Aggregated(logs).nodes;
            && At(t.bandwidth, b) == Bytes(logs, User(b))
            && At(t.tx, NodeSlot(b, n)) == Bytes(logs, SentBy(b, n))
            && At(t.rx, NodeSlot(b, n)) == Bytes(logs, ReceivedBy(b, n))
  {
    hide At;
    if logs == [] {
      NoSlot(b);
      NoSlot(NodeSlot(b, n));
    } else {
      var front, l := logs[..|logs| - 1], logs[|logs| - 1];
      NodesAreLogSums(front, b, n);
      MinuteIs(l, b);
      var t := Aggregated(front);
      NodeStep(t, l, b, n);
      hide MinuteOf, InMinute, NodeTx, NodeRx;
      AtBump(t.nodes.bandwidth, IsUserTraffic(l), MinuteOf(l), l.tx, b);
    }
  }
}

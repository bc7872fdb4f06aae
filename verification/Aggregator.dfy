/**
 The flow aggregator (aggregate in aggregator.go): one loop over the logs adds
 each record's TX bytes to a normalized pair, to network and node bandwidth
 and to the traffic stats. The laws here say the four views carry the same
 bytes, and that the order of the logs does not matter.
 */
module Aggregator {
  import opened GoInts
  import opened FiniteSums
  import opened Strings
  import opened StatsPlan

  /** A log with its endpoints resolved to device ids. */
  datatype FlowLog = FlowLog(at: int, src: string, dst: string, traffic: string, protocol: int, srcPort: int,
                             dstPort: int, tx: int, pkts: int)

  datatype PairSlot = PairSlot(bucket: int, nodeA: string, nodeB: string, traffic: string)
  datatype ProtoSlot = ProtoSlot(pair: PairSlot, protocol: int)
  datatype PortSlot = PortSlot(pair: PairSlot, protocol: int, port: int)
  datatype StatPort = StatPort(bucket: int, protocol: int, port: int)
  datatype NodeSlot = NodeSlot(bucket: int, node: string)

  /** The pair map of the loop, one entry per key and counter. */
  datatype PairTotals = PairTotals(
    tx: map<PairSlot, int>, rx: map<PairSlot, int>,
    txPkts: map<PairSlot, int>, rxPkts: map<PairSlot, int>, flows: map<PairSlot, int>,
    proto: map<ProtoSlot, int>, txProto: map<ProtoSlot, int>, rxProto: map<ProtoSlot, int>,
    ports: map<PortSlot, int>, txPorts: map<PortSlot, int>, rxPorts: map<PortSlot, int>)

  datatype ProtocolTotals = ProtocolTotals(tcp: map<int, int>, udp: map<int, int>, other: map<int, int>)

  datatype TypeTotals = TypeTotals(virtual: map<int, int>, exit: map<int, int>, subnet: map<int, int>,
                                   physical: map<int, int>)

  /** The traffic stats of each minute. */
  datatype StatTotals = StatTotals(
    protocols: ProtocolTotals, types: TypeTotals,
    flows: map<int, int>, ports: map<StatPort, int>, seen: map<int, set<Ends>>)

  /** Network and node bandwidth. */
  datatype NodeTotals = NodeTotals(bandwidth: map<int, int>, tx: map<NodeSlot, int>, rx: map<NodeSlot, int>)

  datatype Totals = Totals(pairs: PairTotals, stats: StatTotals, nodes: NodeTotals)

  const NO_TOTALS: Totals := Totals(
    PairTotals(map[], map[], map[], map[], map[], map[], map[], map[], map[], map[], map[]),
    StatTotals(ProtocolTotals(map[], map[], map[]), TypeTotals(map[], map[], map[], map[]), map[], map[], map[]),
    NodeTotals(map[], map[], map[]))

  const EPHEMERAL_PORT_MIN: int := 32768

  function ServicePort(l: FlowLog): int {
    if l.dstPort >= EPHEMERAL_PORT_MIN && 0 < l.srcPort < EPHEMERAL_PORT_MIN then l.srcPort else l.dstPort
  }

  function MinuteOf(l: FlowLog): int {
    TruncTo(l.at, MINUTE)
  }

  /** The log's sender is the larger id, so its bytes run from B to A. */
  predicate IsReverse(l: FlowLog) {
    l.src != l.dst && !StringLess(l.src, l.dst)
  }

  function SlotOf(l: FlowLog): PairSlot {
    if IsReverse(l) then PairSlot(MinuteOf(l), l.dst, l.src, l.traffic)
        else PairSlot(MinuteOf(l), l.src, l.dst, l.traffic)
  }

  predicate IsUserTraffic(l: FlowLog) {
    l.traffic != "physical"
  }

  predicate HasPort(l: FlowLog) {
    IsUserTraffic(l) && ServicePort(l) > 0
  }

  function At<K>(m: map<K, int>, k: K): int {
    if k in m then m[k] else 0
  }

  /** m[k] += v, when it applies. */
  function Bump<K>(m: map<K, int>, applies: bool, k: K, v: int): map<K, int> {
    if applies then m[k := At(m, k) + v] else m
  }

  function SeenAt(m: map<int, set<Ends>>, b: int): set<Ends> {
    if b in m then m[b] else {}
  }

  function NodeTx(m: map<NodeSlot, int>, l: FlowLog): map<NodeSlot, int> {
    Bump(Bump(m, IsUserTraffic(l), NodeSlot(MinuteOf(l), l.src), l.tx), IsUserTraffic(l) && l.src != l.dst,
        NodeSlot(MinuteOf(l), l.dst), 0)
  }

  function NodeRx(m: map<NodeSlot, int>, l: FlowLog): map<NodeSlot, int> {
    Bump(Bump(m, IsUserTraffic(l), NodeSlot(MinuteOf(l), l.src), 0), IsUserTraffic(l) && l.src != l.dst,
        NodeSlot(MinuteOf(l), l.dst), l.tx)
  }

  function Seen(m: map<int, set<Ends>>, l: FlowLog): map<int, set<Ends>> {
    m[MinuteOf(l) := SeenAt(m, MinuteOf(l)) + {Ends(SlotOf(l).nodeA, SlotOf(l).nodeB)}]
  }

  function PairsStep(t: PairTotals, l: FlowLog): PairTotals {
    var pair, rev, port := SlotOf(l), IsReverse(l), HasPort(l);
    PairTotals(
      Bump(t.tx, true, pair, if rev then 0 else l.tx), Bump(t.rx, true, pair, if rev then l.tx else 0),
      Bump(t.txPkts, true, pair, if rev then 0 else l.pkts), Bump(t.rxPkts, true, pair, if rev then l.pkts else 0),
      Bump(t.flows, true, pair, 1),
      Bump(t.proto, true, ProtoSlot(pair, l.protocol), l.tx),
      Bump(t.txProto, !rev, ProtoSlot(pair, l.protocol), l.tx), Bump(t.rxProto, rev, ProtoSlot(pair, l.protocol), l.tx),
      Bump(t.ports, port, PortSlot(pair, l.protocol, ServicePort(l)), l.tx),
      Bump(t.txPorts, port && !rev, PortSlot(pair, l.protocol, ServicePort(l)), l.tx),
      Bump(t.rxPorts, port && rev, PortSlot(pair, l.protocol, ServicePort(l)), l.tx))
  }

  function ProtocolsStep(t: ProtocolTotals, l: FlowLog): ProtocolTotals {
    var b, user := MinuteOf(l), IsUserTraffic(l);
    ProtocolTotals(
      Bump(t.tcp, user && l.protocol == 6, b, l.tx), Bump(t.udp, user && l.protocol == 17, b, l.tx),
      Bump(t.other, user && l.protocol != 6 && l.protocol != 17, b, l.tx))
  }

  function TypesStep(t: TypeTotals, l: FlowLog): TypeTotals {
    var b := MinuteOf(l);
    TypeTotals(
      Bump(t.virtual, l.traffic == "virtual", b, l.tx), Bump(t.exit, l.traffic == "exit", b, l.tx),
      Bump(t.subnet, l.traffic == "subnet", b, l.tx), Bump(t.physical, l.traffic == "physical", b, l.tx))
  }

  function StatsStep(t: StatTotals, l: FlowLog): StatTotals {
    var b := MinuteOf(l);
    StatTotals(
      ProtocolsStep(t.protocols, l), TypesStep(t.types, l),
      Bump(t.flows, true, b, 1), Bump(t.ports, HasPort(l), StatPort(b, l.protocol, ServicePort(l)), l.tx),
      Seen(t.seen, l))
  }

  function NodesStep(t: NodeTotals, l: FlowLog): NodeTotals {
    NodeTotals(Bump(t.bandwidth, IsUserTraffic(l), MinuteOf(l), l.tx), NodeTx(t.tx, l), NodeRx(t.rx, l))
  }

  /** What one log adds. */
  function Step(t: Totals, l: FlowLog): Totals {
    Totals(PairsStep(t.pairs, l), StatsStep(t.stats, l), NodesStep(t.nodes, l))
  }

  function Aggregated(logs: seq<FlowLog>): Totals {
    if logs == [] then NO_TOTALS else Step(Aggregated(logs[..|logs| - 1]), logs[|logs| - 1])
  }

  /** The loop of aggregate. */
  method Aggregate(logs: seq<FlowLog>) returns (t: Totals)
    ensures t == Aggregated(logs)
  {
    t := NO_TOTALS;
    var i := 0;
    while i < |logs|
      invariant 0 <= i <= |logs|
      invariant t == Aggregated(logs[..i])
    {
      assert logs[..i + 1][..i] == logs[..i];
      t := Record(t, logs[i]);
      i := i + 1;
    }
    assert logs[..i] == logs;
  }

  method Record(t: Totals, l: FlowLog) returns (t': Totals)
    ensures t' == Step(t, l)
  {
    var nodeA, nodeB, isReverse := l.src, l.dst, false;
    if l.src != l.dst && !StringLess(l.src, l.dst) {
      nodeA, nodeB, isReverse := l.dst, l.src, true;
    }
    var bucket := MinuteOf(l);
    var pairs := RecordPair(t.pairs, l, PairSlot(bucket, nodeA, nodeB, l.traffic), isReverse);
    var stats := RecordStats(t.stats, l, bucket, nodeA, nodeB);
    var nodes := RecordNodes(t.nodes, l, bucket);
    t' := Totals(pairs, stats, nodes);
  }

  /** A bump that does not apply changes nothing. */
  lemma BumpOff<K>(m: map<K, int>, k: K, v: int)
    ensures Bump(m, false, k, v) == m
  {
  }

  method RecordPair(t0: PairTotals, l: FlowLog, pair: PairSlot, isReverse: bool) returns (t: PairTotals)
    requires pair == SlotOf(l) && isReverse == IsReverse(l)
    ensures t == PairsStep(t0, l)
  {
    hide Bump, SlotOf, IsReverse, ServicePort;
    var back, forth := if isReverse then l.tx else 0, if isReverse then 0 else l.tx;
    t := t0.(tx := Bump(t0.tx, true, pair, forth), rx := Bump(t0.rx, true, pair, back),
             txPkts := Bump(t0.txPkts, true, pair, if isReverse then 0 else l.pkts),
             rxPkts := Bump(t0.rxPkts, true, pair, if isReverse then l.pkts else 0),
             flows := Bump(t0.flows, true, pair, 1));
    var slot := ProtoSlot(pair, l.protocol);
    t := t.(proto := Bump(t0.proto, true, slot, l.tx));
    if isReverse {
      t := t.(rxProto := Bump(t0.rxProto, true, slot, l.tx));
    } else {
      t := t.(txProto := Bump(t0.txProto, true, slot, l.tx));
    }
    BumpOff(t0.rxProto, slot, l.tx);
    BumpOff(t0.txProto, slot, l.tx);
    var port := ServicePort(l);
    var portSlot := PortSlot(pair, l.protocol, port);
    if l.traffic != "physical" && port > 0 {
      t := t.(ports := Bump(t0.ports, true, portSlot, l.tx));
      if isReverse {
        t := t.(rxPorts := Bump(t0.rxPorts, true, portSlot, l.tx));
      } else {
        t := t.(txPorts := Bump(t0.txPorts, true, portSlot, l.tx));
      }
    }
    BumpOff(t0.ports, portSlot, l.tx);
    BumpOff(t0.rxPorts, portSlot, l.tx);
    BumpOff(t0.txPorts, portSlot, l.tx);
  }

  method RecordStats(t0: StatTotals, l: FlowLog, bucket: int, nodeA: string, nodeB: string) returns (t: StatTotals)
    requires bucket == MinuteOf(l) && nodeA == SlotOf(l).nodeA && nodeB == SlotOf(l).nodeB
    ensures t == StatsStep(t0, l)
  {
    hide Bump, SlotOf, ServicePort, MinuteOf, SeenAt;
    StatsOff(t0, l);
    var protocols := RecordProtocol(t0.protocols, l, bucket);
    var types := RecordType(t0.types, l, bucket);
    t := t0.(protocols := protocols, types := types);
    t := t.(flows := Bump(t.flows, true, bucket, 1),
        seen := t.seen[bucket := SeenAt(t.seen, bucket) + {Ends(nodeA, nodeB)}]);
    var port := ServicePort(l);
    if l.traffic != "physical" && port > 0 {
      t := t.(ports := Bump(t.ports, true, StatPort(bucket, l.protocol, port), l.tx));
    }
  }

  lemma StatsOff(t: StatTotals, l: FlowLog)
    ensures !HasPort(l) ==> StatsStep(t, l).ports == t.ports
  {
  }

  method RecordProtocol(t0: ProtocolTotals, l: FlowLog, bucket: int) returns (t: ProtocolTotals)
    requires bucket == MinuteOf(l)
    ensures t == ProtocolsStep(t0, l)
  {
    hide MinuteOf;
    t := t0;
    if l.traffic != "physical" {
      if l.protocol == 6 {
        t := t.(tcp := Bump(t.tcp, true, bucket, l.tx));
      } else if l.protocol == 17 {
        t := t.(udp := Bump(t.udp, true, bucket, l.tx));
      } else {
        t := t.(other := Bump(t.other, true, bucket, l.tx));
      }
    }
  }

  method RecordType(t0: TypeTotals, l: FlowLog, bucket: int) returns (t: TypeTotals)
    requires bucket == MinuteOf(l)
    ensures t == TypesStep(t0, l)
  {
    hide MinuteOf;
    t := t0;
    if l.traffic == "virtual" {
      t := t.(virtual := Bump(t.virtual, true, bucket, l.tx));
    } else if l.traffic == "exit" {
      t := t.(exit := Bump(t.exit, true, bucket, l.tx));
    } else if l.traffic == "subnet" {
      t := t.(subnet := Bump(t.subnet, true, bucket, l.tx));
    } else if l.traffic == "physical" {
      t := t.(physical := Bump(t.physical, true, bucket, l.tx));
    }
  }

  method RecordNodes(t0: NodeTotals, l: FlowLog, bucket: int) returns (t: NodeTotals)
    requires bucket == MinuteOf(l)
    ensures t == NodesStep(t0, l)
  {
    hide MinuteOf;
    t := t0;
    if l.traffic != "physical" {
      t := t.(bandwidth := Bump(t.bandwidth, true, bucket, l.tx));
      t := t.(tx := Bump(t.tx, true, NodeSlot(bucket, l.src), l.tx),
          rx := Bump(t.rx, true, NodeSlot(bucket, l.src), 0));
      if l.src != l.dst {
        t := t.(tx := Bump(t.tx, true, NodeSlot(bucket, l.dst), 0),
            rx := Bump(t.rx, true, NodeSlot(bucket, l.dst), l.tx));
      }
    }
  }

  // ---- Sums over keys.

  function Chosen<K(!new)>(m: map<K, int>, p: K -> bool): set<K> {
    set k | k in m && p(k)
  }

  ghost function Total<K(!new)>(m: map<K, int>, p: K -> bool): int {
    SumOver(Chosen(m, p), k => At(m, k))
  }

  /** Bumping one key adds to exactly the totals that hold the key. */
  lemma TotalBump<K(!new)>(m: map<K, int>, applies: bool, k: K, v: int, p: K -> bool)
    ensures Total(Bump(m, applies, k, v), p) == Total(m, p) + if applies && p(k) then v else 0
  {
    if applies {
      var n := Bump(m, true, k, v);
      var s, s' := Chosen(m, p), Chosen(n, p);
      var f, f' := x => At(m, x), x => At(n, x);
      SumSame(s - {k}, f, f');
      if p(k) {
        assert s' == s + {k};
        SumTake(s', f', k);
        assert s' - {k} == s - {k};
        if k in s {
          SumTake(s, f, k);
        } else {
          assert s - {k} == s;
        }
      } else {
        assert s' == s && s - {k} == s;
      }
    }
  }

  lemma AtBump<K>(m: map<K, int>, applies: bool, k: K, v: int, x: K)
    ensures At(Bump(m, applies, k, v), x) == At(m, x) + if applies && x == k then v else 0
  {
  }

  function UserPairs(b: int): PairSlot -> bool {
    (k: PairSlot) => k.bucket == b && k.traffic != "physical"
  }

  function SentBy(b: int, n: string): PairSlot -> bool {
    (k: PairSlot) => k.bucket == b && k.traffic != "physical" && k.nodeA == n
  }

  function PeerOf(b: int, n: string): PairSlot -> bool {
    (k: PairSlot) => k.bucket == b && k.traffic != "physical" && k.nodeB == n && k.nodeA != n
  }

  function OtherEnd(b: int, n: string): PairSlot -> bool {
    (k: PairSlot) => k.bucket == b && k.traffic != "physical" && k.nodeA == n && k.nodeB != n
  }

  function OfTraffic(b: int, traffic: string): PairSlot -> bool {
    (k: PairSlot) => k.bucket == b && k.traffic == traffic
  }

  function NodesIn(b: int): NodeSlot -> bool {
    (k: NodeSlot) => k.bucket == b
  }

  function PairsIn(b: int): PairSlot -> bool {
    (k: PairSlot) => k.bucket == b
  }

  function ProtocolsOf(pair: PairSlot): ProtoSlot -> bool {
    (k: ProtoSlot) => k.pair == pair
  }

  function PortsIn(s: StatPort): PortSlot -> bool {
    (k: PortSlot) => k.pair.bucket == s.bucket && k.protocol == s.protocol && k.port == s.port
  }

  // ---- Conservation.

  /**
   In every minute: bytes of non-physical pairs, network bandwidth, TCP plus
   UDP plus other bytes, and TX over all nodes are one number.
   */
  lemma {:induction false} BytesAreConserved(logs: seq<FlowLog>, b: int)
    ensures var t := Aggregated(logs);
            Total(t.pairs.tx, UserPairs(b)) + Total(t.pairs.rx, UserPairs(b)) == At(t.nodes.bandwidth, b)
            && At(t.nodes.bandwidth, b) == At(t.stats.protocols.tcp, b) + At(t.stats.protocols.udp, b)
                + At(t.stats.protocols.other, b)
            && At(t.nodes.bandwidth, b) == Total(t.nodes.tx, NodesIn(b))
  {
    hide Bump, Total, At;
    if logs == [] {
      EmptyTotals<PairSlot>(UserPairs(b));
      EmptyTotals<NodeSlot>(NodesIn(b));
      EmptyAt(b);
    } else {
      var l := logs[|logs| - 1];
      var t := Aggregated(logs[..|logs| - 1]);
      BytesAreConserved(logs[..|logs| - 1], b);
      var m, pair, rev, user := MinuteOf(l), SlotOf(l), IsReverse(l), IsUserTraffic(l);
      TotalBump(t.pairs.tx, true, pair, if rev then 0 else l.tx, UserPairs(b));
      TotalBump(t.pairs.rx, true, pair, if rev then l.tx else 0, UserPairs(b));
      AtBump(t.nodes.bandwidth, user, m, l.tx, b);
      AtBump(t.stats.protocols.tcp, user && l.protocol == 6, m, l.tx, b);
      AtBump(t.stats.protocols.udp, user && l.protocol == 17, m, l.tx, b);
      AtBump(t.stats.protocols.other, user && l.protocol != 6 && l.protocol != 17, m, l.tx, b);
      var sent := Bump(t.nodes.tx, user, NodeSlot(m, l.src), l.tx);
      TotalBump(t.nodes.tx, user, NodeSlot(m, l.src), l.tx, NodesIn(b));
      TotalBump(sent, user && l.src != l.dst, NodeSlot(m, l.dst), 0, NodesIn(b));
    }
  }

  lemma EmptyTotals<K(!new)>(p: K -> bool)
    ensures Total(map[], p) == 0
  {
    assert Chosen(map[], p) == {};
  }

  lemma EmptyAt(b: int)
    ensures At(map[], b) == 0
  {
  }

  /** A node's stored TX and RX are what the normalized pairs say, a self-pair counting once. */
  lemma {:induction false} NodesMatchPairs(logs: seq<FlowLog>, b: int, n: string)
    ensures var t := Aggregated(logs);
            At(t.nodes.tx, NodeSlot(b, n)) == Total(t.pairs.tx, SentBy(b, n)) + Total(t.pairs.rx, PeerOf(b, n))
            && At(t.nodes.rx, NodeSlot(b, n)) == Total(t.pairs.tx, PeerOf(b, n)) + Total(t.pairs.rx, OtherEnd(b, n))
  {
    hide Bump, Total, At;
    if logs == [] {
      EmptyTotals<PairSlot>(SentBy(b, n));
      EmptyTotals<PairSlot>(PeerOf(b, n));
      EmptyTotals<PairSlot>(OtherEnd(b, n));
      NoNode(b, n);
    } else {
      var l := logs[|logs| - 1];
      var t := Aggregated(logs[..|logs| - 1]);
      NodesMatchPairs(logs[..|logs| - 1], b, n);
      NodeStep(t, l, b, n);
      PairStep(t, l, b, n);
    }
  }

  lemma NoNode(b: int, n: string)
    ensures At(map[], NodeSlot(b, n)) == 0
  {
  }

  lemma NodeStep(t: Totals, l: FlowLog, b: int, n: string)
    ensures var user, here, there := IsUserTraffic(l) && MinuteOf(l) == b, l.src == n, l.dst == n && l.src != l.dst;
            At(NodeTx(t.nodes.tx, l), NodeSlot(b, n)) == At(t.nodes.tx, NodeSlot(b, n))
                + (if user && here then l.tx else 0)
            && At(NodeRx(t.nodes.rx, l), NodeSlot(b, n)) == At(t.nodes.rx, NodeSlot(b, n)) +
                if user && there then l.tx else 0
  {
    hide Bump;
    var m, user := MinuteOf(l), IsUserTraffic(l);
    AtBump(t.nodes.tx, user, NodeSlot(m, l.src), l.tx, NodeSlot(b, n));
    AtBump(Bump(t.nodes.tx, user, NodeSlot(m, l.src), l.tx), user && l.src != l.dst, NodeSlot(m, l.dst), 0,
        NodeSlot(b, n));
    AtBump(t.nodes.rx, user, NodeSlot(m, l.src), 0, NodeSlot(b, n));
    AtBump(Bump(t.nodes.rx, user, NodeSlot(m, l.src), 0), user && l.src != l.dst, NodeSlot(m, l.dst), l.tx,
        NodeSlot(b, n));
  }

  lemma PairStep(t: Totals, l: FlowLog, b: int, n: string)
    ensures var user, rev, pair := IsUserTraffic(l) && MinuteOf(l) == b, IsReverse(l), SlotOf(l);
            Total(Step(t, l).pairs.tx, SentBy(b, n)) == Total(t.pairs.tx, SentBy(b, n))
                + (if user && !rev && l.src == n then l.tx else 0)
            && Total(Step(t, l).pairs.rx, PeerOf(b, n)) == Total(t.pairs.rx, PeerOf(b, n))
                + (if user && rev && l.src == n then l.tx else 0)
            && Total(Step(t, l).pairs.tx, PeerOf(b, n)) == Total(t.pairs.tx, PeerOf(b, n))
                + (if user && !rev && l.dst == n && l.src != n then l.tx else 0)
            && Total(Step(t, l).pairs.rx, OtherEnd(b, n)) == Total(t.pairs.rx, OtherEnd(b, n)) +
                if user && rev && l.dst == n then l.tx else 0
  {
    hide Bump, Total;
    var pair, rev := SlotOf(l), IsReverse(l);
    var forth, back := if rev then 0 else l.tx, if rev then l.tx else 0;
    TotalBump(t.pairs.tx, true, pair, forth, SentBy(b, n));
    TotalBump(t.pairs.rx, true, pair, back, PeerOf(b, n));
    TotalBump(t.pairs.tx, true, pair, forth, PeerOf(b, n));
    TotalBump(t.pairs.rx, true, pair, back, OtherEnd(b, n));
  }

  /** Each pair's directional protocol maps sum to its TX and RX, and together make its protocol map. */
  lemma {:induction false} ProtocolsMatchPairs(logs: seq<FlowLog>, pair: PairSlot, p: int)
    ensures var t := Aggregated(logs);
            Total(t.pairs.txProto, ProtocolsOf(pair)) == At(t.pairs.tx, pair)
            && Total(t.pairs.rxProto, ProtocolsOf(pair)) == At(t.pairs.rx, pair)
            && At(t.pairs.proto, ProtoSlot(pair, p)) == At(t.pairs.txProto, ProtoSlot(pair, p))
                + At(t.pairs.rxProto, ProtoSlot(pair, p))
  {
    hide Bump, Total, At;
    if logs == [] {
      EmptyTotals<ProtoSlot>(ProtocolsOf(pair));
      NoPair(pair, p);
    } else {
      var l := logs[|logs| - 1];
      var t := Aggregated(logs[..|logs| - 1]);
      ProtocolsMatchPairs(logs[..|logs| - 1], pair, p);
      var s, rev := SlotOf(l), IsReverse(l);
      TotalBump(t.pairs.txProto, !rev, ProtoSlot(s, l.protocol), l.tx, ProtocolsOf(pair));
      TotalBump(t.pairs.rxProto, rev, ProtoSlot(s, l.protocol), l.tx, ProtocolsOf(pair));
      AtBump(t.pairs.tx, true, s, if rev then 0 else l.tx, pair);
      AtBump(t.pairs.rx, true, s, if rev then l.tx else 0, pair);
      AtBump(t.pairs.proto, true, ProtoSlot(s, l.protocol), l.tx, ProtoSlot(pair, p));
      AtBump(t.pairs.txProto, !rev, ProtoSlot(s, l.protocol), l.tx, ProtoSlot(pair, p));
      AtBump(t.pairs.rxProto, rev, ProtoSlot(s, l.protocol), l.tx, ProtoSlot(pair, p));
    }
  }

  lemma NoPair(pair: PairSlot, p: int)
    ensures At(map[], pair) == 0 && At(map[], ProtoSlot(pair, p)) == 0
  {
  }

  /** The traffic stats are the pairs', type by type; flows count the logs; ports agree before the top-20 cut. */
  lemma {:induction false} StatsMatchPairs(logs: seq<FlowLog>, b: int, s: StatPort)
    ensures var t := Aggregated(logs);
            At(t.stats.types.virtual, b) == Total(t.pairs.tx, OfTraffic(b, "virtual"))
                + Total(t.pairs.rx, OfTraffic(b, "virtual"))
            && At(t.stats.types.exit, b) == Total(t.pairs.tx, OfTraffic(b, "exit"))
                + Total(t.pairs.rx, OfTraffic(b, "exit"))
            && At(t.stats.types.subnet, b) == Total(t.pairs.tx, OfTraffic(b, "subnet"))
                + Total(t.pairs.rx, OfTraffic(b, "subnet"))
            && At(t.stats.types.physical, b) == Total(t.pairs.tx, OfTraffic(b, "physical"))
                + Total(t.pairs.rx, OfTraffic(b, "physical"))
            && At(t.stats.flows, b) == Total(t.pairs.flows, PairsIn(b))
            && At(t.stats.ports, s) == Total(t.pairs.ports, PortsIn(s))
  {
    hide Bump, Total, At;
    if logs == [] {
      EmptyTotals<PairSlot>(OfTraffic(b, "virtual"));
      EmptyTotals<PairSlot>(OfTraffic(b, "exit"));
      EmptyTotals<PairSlot>(OfTraffic(b, "subnet"));
      EmptyTotals<PairSlot>(OfTraffic(b, "physical"));
      EmptyTotals<PairSlot>(PairsIn(b));
      EmptyTotals<PortSlot>(PortsIn(s));
      EmptyAt(b);
      NoPort(s);
    } else {
      var l := logs[|logs| - 1];
      var t := Aggregated(logs[..|logs| - 1]);
      StatsMatchPairs(logs[..|logs| - 1], b, s);
      TypeStep(t, l, b, "virtual", t.stats.types.virtual);
      TypeStep(t, l, b, "exit", t.stats.types.exit);
      TypeStep(t, l, b, "subnet", t.stats.types.subnet);
      TypeStep(t, l, b, "physical", t.stats.types.physical);
      TotalBump(t.pairs.flows, true, SlotOf(l), 1, PairsIn(b));
      AtBump(t.stats.flows, true, MinuteOf(l), 1, b);
      TotalBump(t.pairs.ports, HasPort(l), PortSlot(SlotOf(l), l.protocol, ServicePort(l)), l.tx, PortsIn(s));
      AtBump(t.stats.ports, HasPort(l), StatPort(MinuteOf(l), l.protocol, ServicePort(l)), l.tx, s);
    }
  }

  lemma NoPort(s: StatPort)
    ensures At(map[], s) == 0
  {
  }

  lemma TypeStep(t: Totals, l: FlowLog, b: int, traffic: string, field: map<int, int>)
    ensures At(Bump(field, l.traffic == traffic, MinuteOf(l), l.tx), b) - At(field, b)
         == Total(Step(t, l).pairs.tx, OfTraffic(b, traffic)) + Total(Step(t, l).pairs.rx, OfTraffic(b, traffic))
            - Total(t.pairs.tx, OfTraffic(b, traffic)) - Total(t.pairs.rx, OfTraffic(b, traffic))
  {
    hide Bump, Total, At;
    var rev := IsReverse(l);
    TotalBump(t.pairs.tx, true, SlotOf(l), if rev then 0 else l.tx, OfTraffic(b, traffic));
    TotalBump(t.pairs.rx, true, SlotOf(l), if rev then l.tx else 0, OfTraffic(b, traffic));
    AtBump(field, l.traffic == traffic, MinuteOf(l), l.tx, b);
  }

  /** The unique pairs of a minute are the endpoints of its pair rows. */
  lemma {:induction false} UniquePairsMatch(logs: seq<FlowLog>, b: int)
    ensures var t := Aggregated(logs);
            SeenAt(t.stats.seen, b) == PairEnds(t.pairs.flows, b)
  {
    if logs != [] {
      var l := logs[|logs| - 1];
      var t := Aggregated(logs[..|logs| - 1]);
      UniquePairsMatch(logs[..|logs| - 1], b);
      SeenStep(t, l, b);
    }
  }

  function PairEnds(flows: map<PairSlot, int>, b: int): set<Ends> {
    set k | k in flows && k.bucket == b :: Ends(k.nodeA, k.nodeB)
  }

  lemma SeenStep(t: Totals, l: FlowLog, b: int)
    requires SeenAt(t.stats.seen, b) == PairEnds(t.pairs.flows, b)
    ensures SeenAt(Step(t, l).stats.seen, b) == PairEnds(Step(t, l).pairs.flows, b)
  {
    hide SlotOf;
    var pair := SlotOf(l);
    assert pair.bucket == MinuteOf(l) by { SlotBucket(l); }
    var flows := Bump(t.pairs.flows, true, pair, 1);
    assert PairEnds(flows, b) == PairEnds(t.pairs.flows, b) +
        if pair.bucket == b then {Ends(pair.nodeA, pair.nodeB)} else {} by {
      forall k | k in flows
        ensures k == pair || k in t.pairs.flows
      {
      }
      assert pair in flows;
    }
  }

  lemma SlotBucket(l: FlowLog)
    ensures SlotOf(l).bucket == MinuteOf(l)
  {
  }

  // ---- Order.

  lemma BumpSwap<K>(m: map<K, int>, c: bool, k: K, v: int, d: bool, j: K, w: int)
    ensures Bump(Bump(m, c, k, v), d, j, w) == Bump(Bump(m, d, j, w), c, k, v)
  {
    if c && d && k != j {
      assert m[k := At(m, k) + v][j := At(m, j) + w] == m[j := At(m, j) + w][k := At(m, k) + v];
    }
  }

  lemma NodeSwap(m: map<NodeSlot, int>, c: bool, k: NodeSlot, v: int, c': bool, k': NodeSlot, v': int,
                 d: bool, j: NodeSlot, w: int, d': bool, j': NodeSlot, w': int)
    ensures Bump(Bump(Bump(Bump(m, c, k, v), c', k', v'), d, j, w), d', j', w')
         == Bump(Bump(Bump(Bump(m, d, j, w), d', j', w'), c, k, v), c', k', v')
  {
    hide Bump;
    var m1 := Bump(m, c, k, v);
    BumpSwap(m1, c', k', v', d, j, w);
    BumpSwap(m, c, k, v, d, j, w);
    var m2 := Bump(m, d, j, w);
    BumpSwap(Bump(m2, c, k, v), c', k', v', d', j', w');
    BumpSwap(m2, c, k, v, d', j', w');
  }

  lemma StepSwap(t: Totals, a: FlowLog, b: FlowLog)
    ensures Step(Step(t, a), b) == Step(Step(t, b), a)
  {
    hide PairsStep, StatsStep, NodesStep;
    PairSwap(t.pairs, a, b);
    StatsSwap(t.stats, a, b);
    NodesSwap(t.nodes, a, b);
  }

  lemma PairSwap(t: PairTotals, a: FlowLog, b: FlowLog)
    ensures PairsStep(PairsStep(t, a), b) == PairsStep(PairsStep(t, b), a)
  {
    hide Bump, SlotOf, IsReverse, HasPort, ServicePort;
    CountersSwap(t, a, b);
    PortsSwap(t, a, b);
    var p, q, r, s := SlotOf(a), SlotOf(b), IsReverse(a), IsReverse(b);
    var x, y := ProtoSlot(p, a.protocol), ProtoSlot(q, b.protocol);
    BumpSwap(t.proto, true, x, a.tx, true, y, b.tx);
    BumpSwap(t.txProto, !r, x, a.tx, !s, y, b.tx);
    BumpSwap(t.rxProto, r, x, a.tx, s, y, b.tx);
  }

  lemma CountersSwap(t: PairTotals, a: FlowLog, b: FlowLog)
    ensures var l, r := PairsStep(PairsStep(t, a), b), PairsStep(PairsStep(t, b), a);
            && l.tx == r.tx && l.rx == r.rx && l.txPkts == r.txPkts && l.rxPkts == r.rxPkts && l.flows == r.flows
  {
    hide Bump, SlotOf, IsReverse, HasPort, ServicePort;
    var p, q, r, s := SlotOf(a), SlotOf(b), IsReverse(a), IsReverse(b);
    BumpSwap(t.tx, true, p, if r then 0 else a.tx, true, q, if s then 0 else b.tx);
    BumpSwap(t.rx, true, p, if r then a.tx else 0, true, q, if s then b.tx else 0);
    BumpSwap(t.txPkts, true, p, if r then 0 else a.pkts, true, q, if s then 0 else b.pkts);
    BumpSwap(t.rxPkts, true, p, if r then a.pkts else 0, true, q, if s then b.pkts else 0);
    BumpSwap(t.flows, true, p, 1, true, q, 1);
  }

  lemma PortsSwap(t: PairTotals, a: FlowLog, b: FlowLog)
    ensures var l, r := PairsStep(PairsStep(t, a), b), PairsStep(PairsStep(t, b), a);
            l.ports == r.ports && l.txPorts == r.txPorts && l.rxPorts == r.rxPorts
  {
    hide Bump, SlotOf, IsReverse, HasPort, ServicePort;
    var p, q, r, s := SlotOf(a), SlotOf(b), IsReverse(a), IsReverse(b);
    var u, v := PortSlot(p, a.protocol, ServicePort(a)), PortSlot(q, b.protocol, ServicePort(b));
    BumpSwap(t.ports, HasPort(a), u, a.tx, HasPort(b), v, b.tx);
    BumpSwap(t.txPorts, HasPort(a) && !r, u, a.tx, HasPort(b) && !s, v, b.tx);
    BumpSwap(t.rxPorts, HasPort(a) && r, u, a.tx, HasPort(b) && s, v, b.tx);
  }

  lemma StatsSwap(t: StatTotals, a: FlowLog, b: FlowLog)
    ensures StatsStep(StatsStep(t, a), b) == StatsStep(StatsStep(t, b), a)
  {
    hide Bump, HasPort, MinuteOf, ServicePort, Seen, ProtocolsStep, TypesStep;
    var m, n := MinuteOf(a), MinuteOf(b);
    ProtocolSwap(t.protocols, a, b);
    TypeSwap(t.types, a, b);
    BumpSwap(t.flows, true, m, 1, true, n, 1);
    BumpSwap(t.ports, HasPort(a), StatPort(m, a.protocol, ServicePort(a)), a.tx, HasPort(b),
        StatPort(n, b.protocol, ServicePort(b)), b.tx);
    SeenSwap(t.seen, a, b);
  }

  lemma ProtocolSwap(t: ProtocolTotals, a: FlowLog, b: FlowLog)
    ensures ProtocolsStep(ProtocolsStep(t, a), b) == ProtocolsStep(ProtocolsStep(t, b), a)
  {
    hide Bump, IsUserTraffic, MinuteOf;
    var m, n, c, d := MinuteOf(a), MinuteOf(b), IsUserTraffic(a), IsUserTraffic(b);
    BumpSwap(t.tcp, c && a.protocol == 6, m, a.tx, d && b.protocol == 6, n, b.tx);
    BumpSwap(t.udp, c && a.protocol == 17, m, a.tx, d && b.protocol == 17, n, b.tx);
    BumpSwap(t.other, c && a.protocol != 6 && a.protocol != 17, m, a.tx, d && b.protocol != 6 && b.protocol != 17, n,
        b.tx);
  }

  lemma TypeSwap(t: TypeTotals, a: FlowLog, b: FlowLog)
    ensures TypesStep(TypesStep(t, a), b) == TypesStep(TypesStep(t, b), a)
  {
    hide Bump, MinuteOf;
    var m, n := MinuteOf(a), MinuteOf(b);
    BumpSwap(t.virtual, a.traffic == "virtual", m, a.tx, b.traffic == "virtual", n, b.tx);
    BumpSwap(t.exit, a.traffic == "exit", m, a.tx, b.traffic == "exit", n, b.tx);
    BumpSwap(t.subnet, a.traffic == "subnet", m, a.tx, b.traffic == "subnet", n, b.tx);
    BumpSwap(t.physical, a.traffic == "physical", m, a.tx, b.traffic == "physical", n, b.tx);
  }

  lemma SeenSwap(m: map<int, set<Ends>>, a: FlowLog, b: FlowLog)
    ensures Seen(Seen(m, a), b) == Seen(Seen(m, b), a)
  {
    hide SlotOf, MinuteOf;
    var l, r := Seen(Seen(m, a), b), Seen(Seen(m, b), a);
    assert l.Keys == r.Keys;
    forall k | k in l
      ensures l[k] == r[k]
    {
    }
  }

  lemma NodesSwap(t: NodeTotals, a: FlowLog, b: FlowLog)
    ensures NodesStep(NodesStep(t, a), b) == NodesStep(NodesStep(t, b), a)
  {
    hide Bump, IsUserTraffic, MinuteOf;
    var m, n, c, d := MinuteOf(a), MinuteOf(b), IsUserTraffic(a), IsUserTraffic(b);
    BumpSwap(t.bandwidth, c, m, a.tx, d, n, b.tx);
    NodeSwap(t.tx, c, NodeSlot(m, a.src), a.tx, c && a.src != a.dst, NodeSlot(m, a.dst), 0,
             d, NodeSlot(n, b.src), b.tx, d && b.src != b.dst, NodeSlot(n, b.dst), 0);
    NodeSwap(t.rx, c, NodeSlot(m, a.src), 0, c && a.src != a.dst, NodeSlot(m, a.dst), a.tx,
             d, NodeSlot(n, b.src), 0, d && b.src != b.dst, NodeSlot(n, b.dst), b.tx);
  }

  /** Continues an aggregation. */
  function AggregatedOn(t: Totals, logs: seq<FlowLog>): Totals {
    if logs == [] then t else Step(AggregatedOn(t, logs[..|logs| - 1]), logs[|logs| - 1])
  }

  lemma {:induction false} AggregatedSplit(a: seq<FlowLog>, b: seq<FlowLog>)
    ensures Aggregated(a + b) == AggregatedOn(Aggregated(a), b)
  {
    hide Step;
    if b == [] {
      assert a + b == a;
    } else {
      AggregatedSplit(a, b[..|b| - 1]);
      assert (a + b)[..|a + b| - 1] == a + b[..|b| - 1];
    }
  }

  lemma {:induction false} StepMovesLast(t: Totals, l: FlowLog, logs: seq<FlowLog>)
    ensures AggregatedOn(Step(t, l), logs) == Step(AggregatedOn(t, logs), l)
  {
    hide Step;
    if logs != [] {
      StepMovesLast(t, l, logs[..|logs| - 1]);
      StepSwap(AggregatedOn(t, logs[..|logs| - 1]), l, logs[|logs| - 1]);
    }
  }

  /** The totals depend on which logs there are, not on their order. */
  lemma {:induction false} OrderDoesNotMatter(a: seq<FlowLog>, b: seq<FlowLog>)
    requires multiset(a) == multiset(b)
    ensures Aggregated(a) == Aggregated(b)
    decreases |a|
  {
    hide Step;
    if a == [] {
      assert |multiset(b)| == 0;
    } else {
      var n := |a| - 1;
      var x := a[n];
      assert x in multiset(b);
      var i :| 0 <= i < |b| && b[i] == x;
      var rest := b[..i] + b[i + 1..];
      assert a == a[..n] + [x];
      assert b == b[..i] + [x] + b[i + 1..];
      assert multiset(a) == multiset(a[..n]) + multiset{x};
      assert multiset(b) == multiset(rest) + multiset{x};
      assert multiset(a[..n]) == multiset(a) - multiset{x} == multiset(rest);
      OrderDoesNotMatter(a[..n], rest);
      AggregatedSplit(b[..i] + [x], b[i + 1..]);
      AggregatedSplit(b[..i], b[i + 1..]);
      assert (b[..i] + [x])[..i] == b[..i];
      StepMovesLast(Aggregated(b[..i]), x, b[i + 1..]);
    }
  }
}

/**
 The packed form of a cached hour (packHour in closed_hour_cache.go): interned
 strings, parallel arrays of protocol and port words, and offsets into them.

 An entry is built by appending, so the lemmas say what an append keeps: the
 ids that were given out, the slices of earlier pairs, and the words in them.
 Merging an entry back, partition by partition, is in PackedMerge: it gives
 exactly the groups that went in.
 */
module PackedHour {
  import opened GoInts
  import opened PairGroups
  import opened HourRollup
  import opened SumSets
  import opened PartitionMerge

  const MAX_UINT16: int := 0xffff
  const TWO16: int := 0x1_0000
  const TWO29: int := 0x2000_0000
  const TWO30: int := 0x4000_0000
  const TWO31: int := 0x8000_0000
  const TWO48: int := 0x1_0000_0000_0000

  function Bit(b: bool, value: int): int {
    if b then value else 0
  }

  // ---- Words.

  /** The low 30 bits hold the key in two's complement, the top two the flags. */
  function PackProtoKey(key: int, numeric: bool, keyNull: bool): (v: int)
    ensures 0 <= v < TWO32
  {
    key % TWO30 + Bit(numeric, TWO30) + Bit(keyNull, TWO31)
  }

  /** Sign-extends 30 bits. */
  function UnpackProtoKey(v: int): (int, bool, bool) {
    var raw := v % TWO30;
    (if raw / TWO29 % 2 == 1 then raw - TWO30 else raw, v / TWO30 % 2 == 1, v / TWO31 % 2 == 1)
  }

  lemma ProtoKeyRoundTrip(key: int, numeric: bool, keyNull: bool)
    ensures UnpackProtoKey(PackProtoKey(key, numeric, keyNull)) == (key, numeric, keyNull) <==> -TWO29 <= key < TWO29
  {
    var v := PackProtoKey(key, numeric, keyNull);
    var raw := key % TWO30;
    var top := (if numeric then 1 else 0) + (if keyNull then 2 else 0);
    assert v == top * TWO30 + raw;
    assert v % TWO30 == raw && v / TWO30 == top;
    assert v / TWO31 == top / 2;
  }

  /** port int32 | proto int16 | numeric, null port, null proto. */
  function PackPort(key: PortKey, numeric: bool): int {
    key.port % TWO32 + key.proto % TWO16 * TWO32
        + (Bit(numeric, 1) + Bit(key.portNull, 2) + Bit(key.protoNull, 4)) * TWO48
  }

  function Signed(v: int, width: int): int
    requires width > 0
  {
    if v >= width / 2 then v - width else v
  }

  function UnpackPort(v: int): (PortKey, bool) {
    var flags := v / TWO48;
    (PortKey(flags / 2 % 2 == 1, flags / 4 % 2 == 1, Signed(v % TWO32, TWO32), Signed(v / TWO32 % TWO16, TWO16)),
        flags % 2 == 1)
  }

  predicate PortFits(key: PortKey) {
    -TWO31 <= key.port < TWO31 && -(TWO16 / 2) <= key.proto < TWO16 / 2
  }

  lemma PortRoundTrip(key: PortKey, numeric: bool)
    ensures UnpackPort(PackPort(key, numeric)) == (key, numeric) <==> PortFits(key)
  {
    var v := PackPort(key, numeric);
    var a, b := key.port % TWO32, key.proto % TWO16;
    var f := Bit(numeric, 1) + Bit(key.portNull, 2) + Bit(key.protoNull, 4);
    assert v == a + TWO32 * (b + TWO16 * f);
    assert v % TWO32 == a && v / TWO32 == b + TWO16 * f;
    assert v / TWO32 % TWO16 == b;
    assert v / TWO48 == f;
  }

  // ---- Sets.

  /** The sums of a protocol set in the order packProtos writes them: items, then the null key. */
  function ProtoList(p: ProtoSet): seq<Item<ProtoKey>> {
    ProtoItems(p.sums.items) + if p.hasNull then [Item(NullKey, p.nullKey)] else []
  }

  function ProtoItems(items: seq<Item<int>>): (list: seq<Item<ProtoKey>>)
    ensures |list| == |items| && forall i :: 0 <= i < |items| ==> list[i] == Item(Proto(items[i].key), items[i].sum)
  {
    seq(|items|, i requires 0 <= i < |items| => Item(Proto(items[i].key), items[i].sum))
  }

  predicate ProtosFit(p: ProtoSet) {
    |ProtoList(p)| <= MAX_UINT16
    && forall i :: 0 <= i < |p.sums.items| ==> -TWO29 <= p.sums.items[i].key < TWO29
  }

  predicate PortsFit(s: SumSet<PortKey>) {
    |s.items| <= MAX_UINT16 && forall i :: 0 <= i < |s.items| ==> PortFits(s.items[i].key)
  }

  function NumberOf(s: Sum): int {
    if s.Num? then s.n else 0
  }

  function ProtoWord(item: Item<ProtoKey>): int {
    PackProtoKey(if item.key.Proto? then item.key.id else 0, item.sum.Num?, item.key.NullKey?)
  }

  function ReadProto(word: int, n: int): Item<ProtoKey> {
    var (key, numeric, keyNull) := UnpackProtoKey(word);
    Item(if keyNull then NullKey else Proto(key), if numeric then Num(n) else Null)
  }

  function ReadPort(word: int, n: int): Item<PortKey> {
    var (key, numeric) := UnpackPort(word);
    Item(key, if numeric then Num(n) else Null)
  }

  lemma ProtoItemRoundTrip(item: Item<ProtoKey>)
    requires item.key.Proto? ==> -TWO29 <= item.key.id < TWO29
    ensures ReadProto(ProtoWord(item), NumberOf(item.sum)) == item
  {
    ProtoKeyRoundTrip(if item.key.Proto? then item.key.id else 0, item.sum.Num?, item.key.NullKey?);
  }

  lemma PortItemRoundTrip(item: Item<PortKey>)
    requires PortFits(item.key)
    ensures ReadPort(PackPort(item.key, item.sum.Num?), NumberOf(item.sum)) == item
  {
    PortRoundTrip(item.key, item.sum.Num?);
  }

  lemma {:induction false} ProtoItemsAreMap(items: seq<Item<int>>)
    ensures Sums(ProtoItems(items)) == KeyedProtos(Sums(items), false, Null)
  {
    if items != [] {
      var n := |items| - 1;
      ProtoItemsAreMap(items[..n]);
      assert ProtoItems(items)[..n] == ProtoItems(items[..n]);
      var m, k, sum := Sums(items[..n]), items[n].key, items[n].sum;
      var l, r := KeyedProtos(m, false, Null)[Proto(k) := sum], KeyedProtos(m[k := sum], false, Null);
      forall x
        ensures x in l <==> x in r
      {
        if x.Proto? { assert Proto(x.id) == x; }
      }
      assert l.Keys == r.Keys;
    }
  }

  lemma ProtoListIsMap(p: ProtoSet)
    requires ValidProtos(p)
    ensures DistinctKeys(ProtoList(p)) && Sums(ProtoList(p)) == ProtoMap(p)
  {
    var items := p.sums.items;
    ProtoItemsAreMap(items);
    if p.hasNull {
      assert ProtoList(p)[..|items|] == ProtoItems(items);
      var l, r := KeyedProtos(Sums(items), false, Null)[NullKey := p.nullKey], ProtoMap(p);
      assert l.Keys == r.Keys;
    } else {
      assert ProtoList(p) == ProtoItems(items);
    }
  }

  // ---- Entries.

  /** The pf flags of a pair. */
  datatype Flags = Flags(bucket: bool, tx: bool, rx: bool, txPkts: bool, rxPkts: bool, flows: bool, dir: bool,
                         dirSet: bool)

  datatype PackedPair = PackedPair(
    tx: int, rx: int, txPkts: int, rxPkts: int, flows: int,
    src: int, dst: int, traffic: int,
    protoOff: int, portOff: int,
    nProto: (nat, nat, nat), nPort: (nat, nat, nat),
    bucketOff: int, flags: Flags, part: nat)

  datatype HourEntry = HourEntry(
    hour: int, strs: seq<string>, pairs: seq<PackedPair>,
    protoK: seq<int>, protoN: seq<int>, portK: seq<int>, portN: seq<int>)

  /** Offsets and string ids are uint32; past that they would wrap. */
  predicate Small(e: HourEntry) {
    |e.strs| < TWO32 && |e.protoK| < TWO32 && |e.portK| < TWO32
  }

  predicate Parallel(e: HourEntry) {
    |e.protoK| == |e.protoN| && |e.portK| == |e.portN|
  }

  /** Every array of one entry is a front part of the other's. */
  predicate Extends(e: HourEntry, e': HourEntry) {
    e.hour == e'.hour && e.strs <= e'.strs
    && e.protoK <= e'.protoK && e.protoN <= e'.protoN && e.portK <= e'.portK && e.portN <= e'.portN
  }

  function Total(n: (nat, nat, nat)): nat {
    n.0 + n.1 + n.2
  }

  predicate PairFits(e: HourEntry, p: PackedPair) {
    && Parallel(e)
    && 0 <= p.src < |e.strs| && 0 <= p.dst < |e.strs| && 0 <= p.traffic < |e.strs|
    && 0 <= p.protoOff && p.protoOff + Total(p.nProto) <= |e.protoK|
    && 0 <= p.portOff && p.portOff + Total(p.nPort) <= |e.portK|
  }

  function ReadProtos(e: HourEntry, off: int, n: nat): (items: seq<Item<ProtoKey>>)
    requires Parallel(e) && 0 <= off && off + n <= |e.protoK|
    ensures |items| == n
  {
    seq(n, i requires 0 <= i < n => ReadProto(e.protoK[off + i], e.protoN[off + i]))
  }

  function ReadPorts(e: HourEntry, off: int, n: nat): (items: seq<Item<PortKey>>)
    requires Parallel(e) && 0 <= off && off + n <= |e.portK|
    ensures |items| == n
  {
    seq(n, i requires 0 <= i < n => ReadPort(e.portK[off + i], e.portN[off + i]))
  }

  function KeyOfPair(e: HourEntry, p: PackedPair): PairKey
    requires PairFits(e, p)
  {
    PairKey(e.strs[p.src], e.strs[p.dst], e.strs[p.traffic])
  }

  function Flagged(flag: bool, n: int): Sum {
    if flag then Num(n) else Null
  }

  /** The group a packed pair stands for. */
  function PairView(e: HourEntry, p: PackedPair): Full
    requires PairFits(e, p)
  {
    var o, q := p.protoOff, p.portOff;
    Full(
      Counters(
        if p.flags.bucket then Some(e.hour + p.bucketOff) else None,
        Flagged(p.flags.tx, p.tx), Flagged(p.flags.rx, p.rx), Flagged(p.flags.txPkts, p.txPkts),
            Flagged(p.flags.rxPkts, p.rxPkts),
        Flagged(p.flags.flows, p.flows),
        if p.flags.dirSet then Some(Bit(p.flags.dir, 1)) else None,
        Sums(ReadProtos(e, o, p.nProto.0)),
        Sums(ReadProtos(e, o + p.nProto.0, p.nProto.1)),
        Sums(ReadProtos(e, o + p.nProto.0 + p.nProto.1, p.nProto.2))),
      Sums(ReadPorts(e, q, p.nPort.0)),
      Sums(ReadPorts(e, q + p.nPort.0, p.nPort.1)),
      Sums(ReadPorts(e, q + p.nPort.0 + p.nPort.1, p.nPort.2)))
  }

  /** The slices of one pair hold different keys, as packed sets do. */
  ghost predicate DistinctSlices(e: HourEntry, p: PackedPair)
    requires PairFits(e, p)
  {
    var o, q := p.protoOff, p.portOff;
    && DistinctKeys(ReadProtos(e, o, p.nProto.0))
    && DistinctKeys(ReadProtos(e, o + p.nProto.0, p.nProto.1))
    && DistinctKeys(ReadProtos(e, o + p.nProto.0 + p.nProto.1, p.nProto.2))
    && DistinctKeys(ReadPorts(e, q, p.nPort.0))
    && DistinctKeys(ReadPorts(e, q + p.nPort.0, p.nPort.1))
    && DistinctKeys(ReadPorts(e, q + p.nPort.0 + p.nPort.1, p.nPort.2))
  }

  lemma ReadProtosExtends(e: HourEntry, e': HourEntry, off: int, n: nat)
    requires Parallel(e) && Parallel(e') && Extends(e, e') && 0 <= off && off + n <= |e.protoK|
    ensures ReadProtos(e', off, n) == ReadProtos(e, off, n)
  {
    forall i | 0 <= i < n
      ensures ReadProtos(e', off, n)[i] == ReadProtos(e, off, n)[i]
    {
      assert e'.protoK[off + i] == e.protoK[off + i] && e'.protoN[off + i] == e.protoN[off + i];
    }
  }

  lemma ReadPortsExtends(e: HourEntry, e': HourEntry, off: int, n: nat)
    requires Parallel(e) && Parallel(e') && Extends(e, e') && 0 <= off && off + n <= |e.portK|
    ensures ReadPorts(e', off, n) == ReadPorts(e, off, n)
  {
    forall i | 0 <= i < n
      ensures ReadPorts(e', off, n)[i] == ReadPorts(e, off, n)[i]
    {
      assert e'.portK[off + i] == e.portK[off + i] && e'.portN[off + i] == e.portN[off + i];
    }
  }

  /** Appending more pairs leaves the packed ones as they were. */
  lemma ViewExtends(e: HourEntry, e': HourEntry, p: PackedPair)
    requires PairFits(e, p) && Extends(e, e') && Parallel(e')
    ensures PairFits(e', p) && KeyOfPair(e', p) == KeyOfPair(e, p) && PairView(e', p) == PairView(e, p)
    ensures DistinctSlices(e', p) <==> DistinctSlices(e, p)
  {
    hide ReadProtos, ReadPorts, Sums;
    var o, q, n, m := p.protoOff, p.portOff, p.nProto, p.nPort;
    ReadProtosExtends(e, e', o, n.0);
    ReadProtosExtends(e, e', o + n.0, n.1);
    ReadProtosExtends(e, e', o + n.0 + n.1, n.2);
    ReadPortsExtends(e, e', q, m.0);
    ReadPortsExtends(e, e', q + m.0, m.1);
    ReadPortsExtends(e, e', q + m.0 + m.1, m.2);
  }

  // ---- Packing.

  function ProtoWords(list: seq<Item<ProtoKey>>): (words: seq<int>)
    ensures |words| == |list|
  {
    seq(|list|, i requires 0 <= i < |list| => ProtoWord(list[i]))
  }

  function Numbers<K>(list: seq<Item<K>>): (ns: seq<int>)
    ensures |ns| == |list|
  {
    seq(|list|, i requires 0 <= i < |list| => NumberOf(list[i].sum))
  }

  function PortWords(list: seq<Item<PortKey>>): (words: seq<int>)
    ensures |words| == |list|
  {
    seq(|list|, i requires 0 <= i < |list| => PackPort(list[i].key, list[i].sum.Num?))
  }

  function WithProtos(e: HourEntry, list: seq<Item<ProtoKey>>): HourEntry {
    e.(protoK := e.protoK + ProtoWords(list), protoN := e.protoN + Numbers(list))
  }

  function WithPorts(e: HourEntry, list: seq<Item<PortKey>>): HourEntry {
    e.(portK := e.portK + PortWords(list), portN := e.portN + Numbers(list))
  }

  lemma ReadWhatWasWritten(e: HourEntry, p: ProtoSet)
    requires Parallel(e) && ProtosFit(p)
    ensures var list := ProtoList(p);
            Parallel(WithProtos(e, list)) && ReadProtos(WithProtos(e, list), |e.protoK|, |list|) == list
  {
    var list := ProtoList(p);
    var e' := WithProtos(e, list);
    forall i | 0 <= i < |list|
      ensures ReadProto(e'.protoK[|e.protoK| + i], e'.protoN[|e.protoK| + i]) == list[i]
    {
      ProtoItemRoundTrip(list[i]);
    }
  }

  lemma ReadPortsWritten(e: HourEntry, s: SumSet<PortKey>)
    requires Parallel(e) && PortsFit(s)
    ensures Parallel(WithPorts(e, s.items)) && ReadPorts(WithPorts(e, s.items), |e.portK|, |s.items|) == s.items
  {
    var e' := WithPorts(e, s.items);
    forall i | 0 <= i < |s.items|
      ensures ReadPort(e'.portK[|e.portK| + i], e'.portN[|e.portK| + i]) == s.items[i]
    {
      PortItemRoundTrip(s.items[i]);
    }
  }

  method PackProtos(e: HourEntry, p: ProtoSet) returns (e': HourEntry, n: nat, ok: bool)
    requires Parallel(e)
    ensures ok <==> ProtosFit(p)
    ensures ok ==> n == |ProtoList(p)| && e' == WithProtos(e, ProtoList(p))
  {
    e', n, ok := e, |p.sums.items| + (if p.hasNull then 1 else 0), false;
    if n > MAX_UINT16 {
      return;
    }
    ghost var list := ProtoList(p);
    assert WithProtos(e, list[..0]) == e;
    var i := 0;
    while i < |p.sums.items|
      invariant 0 <= i <= |p.sums.items|
      invariant forall j :: 0 <= j < i ==> -TWO29 <= p.sums.items[j].key < TWO29
      invariant e' == WithProtos(e, list[..i])
    {
      var item := p.sums.items[i];
      if item.key < -TWO29 || item.key >= TWO29 {
        return;
      }
      WriteOneMore(e, list, i);
      e' := e'.(protoK := e'.protoK + [PackProtoKey(item.key, item.sum.Num?, false)], protoN := e'.protoN
          + [NumberOf(item.sum)]);
      i := i + 1;
    }
    if p.hasNull {
      WriteOneMore(e, list, i);
      e' := e'.(protoK := e'.protoK + [PackProtoKey(0, p.nullKey.Num?, true)], protoN := e'.protoN
          + [NumberOf(p.nullKey)]);
      assert list[..i + 1] == list;
    } else {
      assert list[..i] == list;
    }
    ok := true;
  }

  lemma WriteOneMore(e: HourEntry, list: seq<Item<ProtoKey>>, i: nat)
    requires i < |list|
    ensures var e' := WithProtos(e, list[..i]);
            WithProtos(e, list[..i + 1])
            == e'.(protoK := e'.protoK + [ProtoWord(list[i])], protoN := e'.protoN + [NumberOf(list[i].sum)])
  {
    assert ProtoWords(list[..i + 1]) == ProtoWords(list[..i]) + [ProtoWord(list[i])];
    assert Numbers(list[..i + 1]) == Numbers(list[..i]) + [NumberOf(list[i].sum)];
  }

  method PackPorts(e: HourEntry, s: SumSet<PortKey>) returns (e': HourEntry, n: nat, ok: bool)
    requires Parallel(e)
    ensures ok <==> PortsFit(s)
    ensures ok ==> n == |s.items| && e' == WithPorts(e, s.items)
  {
    e', n, ok := e, |s.items|, false;
    if n > MAX_UINT16 {
      return;
    }
    assert WithPorts(e, s.items[..0]) == e;
    var i := 0;
    while i < |s.items|
      invariant 0 <= i <= |s.items|
      invariant forall j :: 0 <= j < i ==> PortFits(s.items[j].key)
      invariant e' == WithPorts(e, s.items[..i])
    {
      var item := s.items[i];
      if !PortFits(item.key) {
        return;
      }
      WritePortMore(e, s.items, i);
      e' := e'.(portK := e'.portK + [PackPort(item.key, item.sum.Num?)], portN := e'.portN + [NumberOf(item.sum)]);
      i := i + 1;
    }
    assert s.items[..i] == s.items;
    ok := true;
  }

  lemma WritePortMore(e: HourEntry, list: seq<Item<PortKey>>, i: nat)
    requires i < |list|
    ensures var e' := WithPorts(e, list[..i]);
            WithPorts(e, list[..i + 1])
            == e'.(portK := e'.portK + [PackPort(list[i].key, list[i].sum.Num?)], portN := e'.portN
                + [NumberOf(list[i].sum)])
  {
    assert PortWords(list[..i + 1]) == PortWords(list[..i]) + [PackPort(list[i].key, list[i].sum.Num?)];
    assert Numbers(list[..i + 1]) == Numbers(list[..i]) + [NumberOf(list[i].sum)];
  }

  /** Every interned string is where its id says. */
  ghost predicate IdsOk(e: HourEntry, ids: map<string, int>) {
    forall s :: s in ids ==> 0 <= ids[s] < |e.strs| && e.strs[ids[s]] == s
  }

  method Intern(e: HourEntry, ids: map<string, int>, s: string) returns (e': HourEntry, ids': map<string, int>, id: int)
    ensures e' == e.(strs := e'.strs) && e.strs <= e'.strs
    ensures Small(e') && IdsOk(e, ids) ==> IdsOk(e', ids') && 0 <= id < |e'.strs| && e'.strs[id] == s
  {
    if s in ids {
      return e, ids, ids[s];
    }
    id := |e.strs| % TWO32;
    e' := e.(strs := e.strs + [s]);
    ids' := ids[s := id];
  }

  method InternKey(e: HourEntry, ids: map<string, int>, key: PairKey)
    returns (e': HourEntry, ids': map<string, int>, src: int, dst: int, traffic: int)
    ensures e' == e.(strs := e'.strs) && e.strs <= e'.strs
    ensures Small(e') && IdsOk(e, ids) ==>
              IdsOk(e', ids')
              && 0 <= src < |e'.strs| && 0 <= dst < |e'.strs| && 0 <= traffic < |e'.strs|
              && PairKey(e'.strs[src], e'.strs[dst], e'.strs[traffic]) == key
  {
    e', ids', src := Intern(e, ids, key.src);
    e', ids', dst := Intern(e', ids', key.dst);
    e', ids', traffic := Intern(e', ids', key.traffic);
  }

  /** What packHour can represent of one group. */
  ghost predicate GroupFits(hour: int, g: PairGroup)
    reads g
  {
    && (g.bucket.Some? ==> 0 <= g.bucket.value - hour < HOUR)
    && (g.directional.Some? ==> g.directional.value == 0 || g.directional.value == 1)
    && ProtosFit(g.protocols) && ProtosFit(g.txProto) && ProtosFit(g.rxProto)
    && PortsFit(g.ports) && PortsFit(g.txPorts) && PortsFit(g.rxPorts)
  }

  method PackProtoSets(e: HourEntry, a: ProtoSet, b: ProtoSet, c: ProtoSet) returns (e': HourEntry,
                       n: (nat, nat, nat), ok: bool)
    requires Parallel(e)
    ensures ok <==> ProtosFit(a) && ProtosFit(b) && ProtosFit(c)
    ensures Parallel(e')
    ensures ok ==>
              Parallel(e') && e' == e.(protoK := e'.protoK, protoN := e'.protoN) && Extends(e, e')
              && |e.protoK| + Total(n) == |e'.protoK|
              && ReadProtos(e', |e.protoK|, n.0) == ProtoList(a)
              && ReadProtos(e', |e.protoK| + n.0, n.1) == ProtoList(b)
              && ReadProtos(e', |e.protoK| + n.0 + n.1, n.2) == ProtoList(c)
  {
    n := (0, 0, 0);
    var e1, n0, ok0 := PackProtos(e, a);
    if !ok0 { return e, n, false; }
    ReadWhatWasWritten(e, a);
    var e2, n1, ok1 := PackProtos(e1, b);
    if !ok1 { return e, n, false; }
    ReadWhatWasWritten(e1, b);
    var e3, n2, ok2 := PackProtos(e2, c);
    if !ok2 { return e, n, false; }
    ReadWhatWasWritten(e2, c);
    e', n, ok := e3, (n0, n1, n2), true;
    hide ReadProtos, ProtoList;
    ReadProtosExtends(e1, e3, |e.protoK|, n0);
    ReadProtosExtends(e2, e3, |e1.protoK|, n1);
  }

  method PackPortSets(e: HourEntry, a: SumSet<PortKey>, b: SumSet<PortKey>, c: SumSet<PortKey>)
    returns (e': HourEntry, n: (nat, nat, nat), ok: bool)
    requires Parallel(e)
    ensures ok <==> PortsFit(a) && PortsFit(b) && PortsFit(c)
    ensures ok ==>
              Parallel(e') && e' == e.(portK := e'.portK, portN := e'.portN) && Extends(e, e')
              && |e.portK| + Total(n) == |e'.portK|
              && ReadPorts(e', |e.portK|, n.0) == a.items
              && ReadPorts(e', |e.portK| + n.0, n.1) == b.items
              && ReadPorts(e', |e.portK| + n.0 + n.1, n.2) == c.items
  {
    n := (0, 0, 0);
    var e1, n0, ok0 := PackPorts(e, a);
    if !ok0 { return e, n, false; }
    ReadPortsWritten(e, a);
    var e2, n1, ok1 := PackPorts(e1, b);
    if !ok1 { return e, n, false; }
    ReadPortsWritten(e1, b);
    var e3, n2, ok2 := PackPorts(e2, c);
    if !ok2 { return e, n, false; }
    ReadPortsWritten(e2, c);
    e', n, ok := e3, (n0, n1, n2), true;
    hide ReadPorts;
    ReadPortsExtends(e1, e3, |e.portK|, n0);
    ReadPortsExtends(e2, e3, |e1.portK|, n1);
  }

  /** One group of packHour. */
  method PackGroup(e: HourEntry, ids: map<string, int>, key: PairKey, g: PairGroup, hash: PairKey -> nat)
    returns (e': HourEntry, ids': map<string, int>, p: PackedPair, ok: bool)
    requires Parallel(e) && g.Valid()
    ensures ok <==> GroupFits(e.hour, g)
    ensures ok ==> Parallel(e') && Extends(e, e') && e'.pairs == e.pairs && p.part == hash(key)
    ensures ok && Small(e') ==>
              p.protoOff == |e.protoK| && p.protoOff + Total(p.nProto) == |e'.protoK|
              && p.portOff == |e.portK| && p.portOff + Total(p.nPort) == |e'.portK|
    ensures ok && Small(e') && IdsOk(e, ids) ==>
              IdsOk(e', ids') && PairFits(e', p) && KeyOfPair(e', p) == key && PairView(e', p) == g.View()
              && DistinctSlices(e', p)
  {
    hide GroupFits, ProtosFit, PortsFit, ReadProtos, ReadPorts, ProtoList, ValidProtos, ValidSet, Extends, PairView,
        IdsOk, DistinctSlices;
    e', ids', p := e, ids, PackedPair(0, 0, 0, 0, 0, 0, 0, 0, 0, 0, (0, 0, 0), (0, 0, 0), 0, NO_FLAGS, 0);
    var flags, bucketOff, scalars := PackScalars(e.hour, g);
    ok := scalars;
    FitsInParts(e.hour, g);
    if !scalars {
      return;
    }
    var e1, src, dst, traffic;
    e1, ids', src, dst, traffic := InternKey(e, ids, key);
    var protoOff, portOff := |e1.protoK| % TWO32, |e1.portK| % TWO32;
    var e2, nProto, protosFit := PackProtoSets(e1, g.protocols, g.txProto, g.rxProto);
    var e3, nPort, portsFit := PackPortSets(e2, g.ports, g.txPorts, g.rxPorts);
    ok := protosFit && portsFit;
    if !ok {
      return;
    }
    e' := e3;
    p := PackedPair(NumberOf(g.tx), NumberOf(g.rx), NumberOf(g.txPkts), NumberOf(g.rxPkts), NumberOf(g.flows),
                    src, dst, traffic, protoOff, portOff, nProto, nPort, bucketOff, flags, hash(key));
    ExtendsThrice(e, e1, e2, e3);
    if Small(e') && IdsOk(e, ids) {
      SameIds(e1, e', ids');
      PackedViews(e, e2, e', g, p);
      PackedSlices(e2, e', g, p);
    }
  }

  lemma SameIds(e: HourEntry, e': HourEntry, ids: map<string, int>)
    requires e.strs == e'.strs
    ensures IdsOk(e, ids) <==> IdsOk(e', ids)
  {
  }

  lemma ExtendsThrice(e: HourEntry, e1: HourEntry, e2: HourEntry, e3: HourEntry)
    requires e1 == e.(strs := e1.strs) && e.strs <= e1.strs && Extends(e1, e2) && Extends(e2, e3)
    ensures Extends(e, e3)
  {
  }

  lemma FitsInParts(hour: int, g: PairGroup)
    ensures GroupFits(hour, g)
       <==> ScalarsFit(hour, g)
            && (ProtosFit(g.protocols) && ProtosFit(g.txProto) && ProtosFit(g.rxProto))
            && (PortsFit(g.ports) && PortsFit(g.txPorts) && PortsFit(g.rxPorts))
  {
  }

  const NO_FLAGS: Flags := Flags(false, false, false, false, false, false, false, false)

  ghost predicate ScalarsFit(hour: int, g: PairGroup)
    reads g
  {
    && (g.bucket.Some? ==> 0 <= g.bucket.value - hour < HOUR)
    && (g.directional.Some? ==> g.directional.value == 0 || g.directional.value == 1)
  }

  method PackScalars(hour: int, g: PairGroup) returns (flags: Flags, bucketOff: int, ok: bool)
    ensures ok <==> ScalarsFit(hour, g)
    ensures ok ==>
              flags.tx == g.tx.Num? && flags.rx == g.rx.Num? && flags.txPkts == g.txPkts.Num? && flags.rxPkts
                  == g.rxPkts.Num?
              && flags.flows == g.flows.Num? && flags.bucket == g.bucket.Some? && flags.dirSet == g.directional.Some?
              && (g.bucket.Some? ==> g.bucket.value == hour + bucketOff)
              && (g.directional.Some? ==> g.directional.value == Bit(flags.dir, 1))
  {
    flags := Flags(false, g.tx.Num?, g.rx.Num?, g.txPkts.Num?, g.rxPkts.Num?, g.flows.Num?, false, false);
    bucketOff := 0;
    ok := false;
    if g.bucket.Some? {
      bucketOff := g.bucket.value - hour;
      if bucketOff < 0 || bucketOff >= HOUR {
        return;
      }
      flags := flags.(bucket := true);
    }
    if g.directional.Some? {
      if g.directional.value != 0 && g.directional.value != 1 {
        return;
      }
      flags := flags.(dirSet := true, dir := g.directional.value == 1);
    }
    ok := true;
  }

  lemma PackedViews(e: HourEntry, mid: HourEntry, e': HourEntry, g: PairGroup, p: PackedPair)
    requires Parallel(mid) && Parallel(e') && Extends(mid, e') && mid.protoK == e'.protoK && mid.protoN == e'.protoN
    requires PairFits(e', p) && g.Valid() && e'.hour == e.hour
    requires SlicesHold(mid, e', g, p)
    requires p.flags.tx == g.tx.Num? && p.flags.rx == g.rx.Num? && p.flags.txPkts == g.txPkts.Num? && p.flags.rxPkts
             == g.rxPkts.Num?
    requires p.flags.flows == g.flows.Num? && p.flags.bucket == g.bucket.Some? && p.flags.dirSet == g.directional.Some?
    requires p.tx == NumberOf(g.tx) && p.rx == NumberOf(g.rx) && p.txPkts == NumberOf(g.txPkts) && p.rxPkts
             == NumberOf(g.rxPkts)
    requires p.flows == NumberOf(g.flows) && (g.bucket.Some? ==> g.bucket.value == e.hour + p.bucketOff)
    requires g.directional.Some? ==> g.directional.value == Bit(p.flags.dir, 1)
    ensures PairView(e', p) == g.View()
  {
    hide ReadProtos, ReadPorts, Sums, ProtoList, ProtoMap, ValidProtos, ValidSet, Extends, DistinctKeys;
    SetIsRead(mid, e', p.protoOff, p.nProto.0, g.protocols);
    SetIsRead(mid, e', p.protoOff + p.nProto.0, p.nProto.1, g.txProto);
    SetIsRead(mid, e', p.protoOff + p.nProto.0 + p.nProto.1, p.nProto.2, g.rxProto);
    SumIsFlagged(g.tx);
    SumIsFlagged(g.rx);
    SumIsFlagged(g.txPkts);
    SumIsFlagged(g.rxPkts);
    SumIsFlagged(g.flows);
    hide Flagged, NumberOf;
  }

  lemma PackedSlices(mid: HourEntry, e': HourEntry, g: PairGroup, p: PackedPair)
    requires Parallel(mid) && Parallel(e') && Extends(mid, e') && mid.protoK == e'.protoK && mid.protoN == e'.protoN
    requires PairFits(e', p) && g.Valid() && SlicesHold(mid, e', g, p)
    ensures DistinctSlices(e', p)
  {
    assert DistinctKeys(g.ports.items) && DistinctKeys(g.txPorts.items) && DistinctKeys(g.rxPorts.items);
    hide ReadProtos, ReadPorts, Sums, ProtoList, ProtoMap, ValidProtos, ValidSet, Extends, DistinctKeys;
    SetIsRead(mid, e', p.protoOff, p.nProto.0, g.protocols);
    SetIsRead(mid, e', p.protoOff + p.nProto.0, p.nProto.1, g.txProto);
    SetIsRead(mid, e', p.protoOff + p.nProto.0 + p.nProto.1, p.nProto.2, g.rxProto);
  }

  /** The slices of a pair read back as the group's sets. */
  ghost predicate SlicesHold(mid: HourEntry, e': HourEntry, g: PairGroup, p: PackedPair)
    reads g
    requires PairFits(e', p) && Parallel(mid) && mid.protoK == e'.protoK
  {
    && ReadProtos(mid, p.protoOff, p.nProto.0) == ProtoList(g.protocols)
    && ReadProtos(mid, p.protoOff + p.nProto.0, p.nProto.1) == ProtoList(g.txProto)
    && ReadProtos(mid, p.protoOff + p.nProto.0 + p.nProto.1, p.nProto.2) == ProtoList(g.rxProto)
    && ReadPorts(e', p.portOff, p.nPort.0) == g.ports.items
    && ReadPorts(e', p.portOff + p.nPort.0, p.nPort.1) == g.txPorts.items
    && ReadPorts(e', p.portOff + p.nPort.0 + p.nPort.1, p.nPort.2) == g.rxPorts.items
  }

  lemma SumIsFlagged(s: Sum)
    ensures Flagged(s.Num?, NumberOf(s)) == s
  {
  }

  lemma SetIsRead(e: HourEntry, e': HourEntry, off: int, n: nat, p: ProtoSet)
    requires Parallel(e) && Parallel(e') && Extends(e, e') && 0 <= off && off + n <= |e.protoK|
    requires ReadProtos(e, off, n) == ProtoList(p) && ValidProtos(p)
    ensures Sums(ReadProtos(e', off, n)) == ProtoMap(p) && DistinctKeys(ReadProtos(e', off, n))
  {
    ReadProtosExtends(e, e', off, n);
    ProtoListIsMap(p);
  }

  ghost predicate AllFit(e: HourEntry) {
    Parallel(e) && forall p :: p in e.pairs ==> PairFits(e, p) && DistinctSlices(e, p)
  }

  /** The pairs of an entry, decoded. */
  ghost function EntryRows(e: HourEntry): (rows: seq<Row>)
    requires AllFit(e)
    ensures |rows| == |e.pairs|
  {
    seq(|e.pairs|, i requires 0 <= i < |e.pairs| => Row(KeyOfPair(e, e.pairs[i]), PairView(e, e.pairs[i])))
  }

  /** No two pairs share a word. */
  ghost predicate Apart(e: HourEntry) {
    forall i, j :: 0 <= i < j < |e.pairs| ==>
      e.pairs[i].protoOff + Total(e.pairs[i].nProto) <= e.pairs[j].protoOff
      && e.pairs[i].portOff + Total(e.pairs[i].nPort) <= e.pairs[j].portOff
  }

  /** Every pair carries the hash of its key. */
  ghost predicate Hashed(e: HourEntry, hash: PairKey -> nat) {
    AllFit(e) && forall i :: 0 <= i < |e.pairs| ==> e.pairs[i].part == hash(EntryRows(e)[i].key)
  }

  ghost function ViewsOf(grouped: map<PairKey, PairGroup>): Groups
    reads grouped.Values
  {
    map k | k in grouped :: grouped[k].View()
  }

  /** The pairs packed so far list the groups already taken. */
  ghost predicate PackedSoFar(e: HourEntry, ids: map<string, int>, m: Groups, hash: PairKey -> nat) {
    IdsOk(e, ids) && AllFit(e) && Apart(e) && Hashed(e, hash) && Lists(EntryRows(e), m)
  }

  lemma PackedOneMore(e: HourEntry, e': HourEntry, ids: map<string, int>, ids': map<string, int>, m: Groups,
                      hash: PairKey -> nat,
                      key: PairKey, view: Full, p: PackedPair)
    requires PackedSoFar(e, ids, m, hash) && key !in m
    requires Parallel(e') && Extends(e, e') && e'.pairs == e.pairs && p.part == hash(key) && IdsOk(e', ids')
    requires PairFits(e', p) && KeyOfPair(e', p) == key && PairView(e', p) == view && DistinctSlices(e', p)
    requires p.protoOff == |e.protoK| && p.portOff == |e.portK|
    ensures PackedSoFar(e'.(pairs := e'.pairs + [p]), ids', m[key := view], hash)
  {
    var e'' := e'.(pairs := e'.pairs + [p]);
    hide PairView, KeyOfPair, Extends, Lists, DistinctSlices;
    forall i | 0 <= i < |e.pairs|
      ensures PairFits(e'', e.pairs[i]) && DistinctSlices(e'', e.pairs[i]) && KeyOfPair(e'', e.pairs[i])
              == EntryRows(e)[i].key && PairView(e'', e.pairs[i]) == EntryRows(e)[i].full
    {
      assert e.pairs[i] in e.pairs;
      ViewExtends(e, e', e.pairs[i]);
      PairsDoNotMatter(e', e'', e.pairs[i]);
    }
    PairsDoNotMatter(e', e'', p);
    assert AllFit(e'');
    assert EntryRows(e'') == EntryRows(e) + [Row(key, view)];
    ListsSnoc(EntryRows(e), m, key, view);
    forall i | 0 <= i < |e.pairs|
      ensures e.pairs[i].protoOff + Total(e.pairs[i].nProto) <= |e.protoK| && e.pairs[i].portOff
              + Total(e.pairs[i].nPort) <= |e.portK|
    {
      assert PairFits(e, e.pairs[i]);
    }
  }

  lemma PairsDoNotMatter(e: HourEntry, e': HourEntry, p: PackedPair)
    requires e' == e.(pairs := e'.pairs) && PairFits(e, p)
    ensures PairFits(e', p) && KeyOfPair(e', p) == KeyOfPair(e, p) && PairView(e', p) == PairView(e, p)
    ensures DistinctSlices(e', p) <==> DistinctSlices(e, p)
  {
    ViewExtends(e, e', p);
  }

  lemma ListsSnoc(rows: seq<Row>, m: Groups, key: PairKey, view: Full)
    requires Lists(rows, m) && key !in m
    ensures Lists(rows + [Row(key, view)], m[key := view])
  {
    forall r | r in rows
      ensures r.key != key
    {
    }
    var next := rows + [Row(key, view)];
    forall i, j | 0 <= i < j < |next|
      ensures next[i].key != next[j].key
    {
      assert rows[i] in rows;
    }
  }

  /** packHour: an entry that lists exactly the groups, or none when some value does not fit. */
  method PackHour(hour: int, grouped: map<PairKey, PairGroup>, hash: PairKey -> nat) returns (entry: Option<HourEntry>)
    requires forall k :: k in grouped ==> grouped[k].Valid()
    ensures entry.Some? <==> forall k :: k in grouped ==> GroupFits(hour, grouped[k])
    ensures entry.Some? && Small(entry.value) ==>
              AllFit(entry.value) && Apart(entry.value) && Hashed(entry.value, hash)
              && Lists(EntryRows(entry.value), ViewsOf(grouped))
  {
    hide GroupFits, PairView, KeyOfPair, Extends, Lists, AllFit, Apart, Hashed, PairGroup.View, PairGroup.Valid,
        PackedSoFar, IdsOk;
    var e := HourEntry(hour, [], [], [], [], [], []);
    var ids: map<string, int> := map[];
    var left := grouped.Keys;
    ghost var views := ViewsOf(grouped);
    assert views - left == map[];
    NothingPacked(hour, hash);
    while left != {}
      invariant left <= grouped.Keys && views == ViewsOf(grouped) && e.hour == hour && Parallel(e)
      invariant forall k :: k in grouped && k !in left ==> GroupFits(hour, grouped[k])
      invariant Small(e) ==> PackedSoFar(e, ids, views - left, hash)
      decreases left
    {
      var key :| key in left;
      var e', ids', p, ok := PackGroup(e, ids, key, grouped[key], hash);
      if !ok {
        return None;
      }
      if Small(e') {
        assert Small(e) && IdsOk(e, ids) by { StillSmall(e, e'); SoFarIds(e, ids, views - left, hash); }
        PackedOneMore(e, e', ids, ids', views - left, hash, key, views[key], p);
        assert views - (left - {key}) == (views - left)[key := views[key]];
      }
      ghost var e0 := e;
      e := e'.(pairs := e'.pairs + [p]);
      assert e.hour == hour by { StillSmall(e0, e'); }
      ids := ids';
      left := left - {key};
    }
    assert views - left == views;
    if Small(e) {
      SoFarGives(e, ids, views, hash);
    }
    entry := Some(e);
  }

  lemma SoFarIds(e: HourEntry, ids: map<string, int>, m: Groups, hash: PairKey -> nat)
    requires PackedSoFar(e, ids, m, hash)
    ensures IdsOk(e, ids)
  {
  }

  lemma SoFarGives(e: HourEntry, ids: map<string, int>, m: Groups, hash: PairKey -> nat)
    requires PackedSoFar(e, ids, m, hash)
    ensures AllFit(e) && Apart(e) && Hashed(e, hash) && Lists(EntryRows(e), m)
  {
  }

  lemma StillSmall(e: HourEntry, e': HourEntry)
    requires Extends(e, e')
    ensures Small(e') ==> Small(e)
    ensures e'.hour == e.hour
  {
  }

  lemma NothingPacked(hour: int, hash: PairKey -> nat)
    ensures PackedSoFar(HourEntry(hour, [], [], [], [], [], []), map[], map[], hash)
  {
  }
}

/**
 The mutable partial sums of a read (node_pair_read.go): a sum set scans a few
 keys and switches to an index past sixteen, and must behave like a plain map
 on both sides of the switch.

 A pair group is eleven such values that merge in place. Full is the same on
 values, and the group's methods are stated by it.
 */
module SumSets {
  import opened PairGroups

  const SMALL_LIMIT: nat := 16

  datatype Item<K> = Item(key: K, sum: Sum)

  /** protoSums or portSums: items in order of first use, and their positions once there are many. */
  datatype SumSet<K(==)> = SumSet(items: seq<Item<K>>, index: Option<map<K, nat>>)

  ghost predicate DistinctKeys<K>(items: seq<Item<K>>) {
    forall i, j :: 0 <= i < j < |items| ==> items[i].key != items[j].key
  }

  ghost predicate Indexes<K(!new)>(index: map<K, nat>, items: seq<Item<K>>) {
    && (forall k :: k in index ==> index[k] < |items| && items[index[k]].key == k)
    && (forall i :: 0 <= i < |items| ==> items[i].key in index)
  }

  ghost predicate ValidSet<K(!new)>(s: SumSet<K>) {
    && DistinctKeys(s.items)
    && (s.index.Some? <==> |s.items| > SMALL_LIMIT)
    && (s.index.Some? ==> Indexes(s.index.value, s.items))
  }

  function EmptySet<K(==)>(): SumSet<K> {
    SumSet([], None)
  }

  /** The plain map a set stands for. */
  function Sums<K(==)>(items: seq<Item<K>>): map<K, Sum> {
    if items == [] then map[]
    else Sums(items[..|items| - 1])[items[|items| - 1].key := items[|items| - 1].sum]
  }

  function AddTo<K(==)>(m: map<K, Sum>, key: K, sum: Sum): map<K, Sum> {
    m[key := AddSum(SumAt(m, key), sum)]
  }

  lemma {:induction false} SumsAt<K>(items: seq<Item<K>>, i: nat)
    requires DistinctKeys(items) && i < |items|
    ensures items[i].key in Sums(items) && Sums(items)[items[i].key] == items[i].sum
    decreases |items|
  {
    if i < |items| - 1 {
      SumsAt(items[..|items| - 1], i);
      assert items[..|items| - 1][i] == items[i];
    }
  }

  lemma {:induction false} SumsKeys<K(!new)>(items: seq<Item<K>>)
    ensures forall k :: k in Sums(items) <==> exists i :: 0 <= i < |items| && items[i].key == k
  {
    if items != [] {
      var n := |items| - 1;
      SumsKeys(items[..n]);
      forall k
        ensures k in Sums(items) <==> exists i :: 0 <= i < |items| && items[i].key == k
      {
        if k in Sums(items[..n]) {
          var i :| 0 <= i < n && items[..n][i].key == k;
          assert items[i].key == k;
        }
        if exists i :: 0 <= i < |items| && items[i].key == k {
          var i :| 0 <= i < |items| && items[i].key == k;
          assert i < n ==> items[..n][i].key == k;
        }
      }
    }
  }

  /** Updating the sum of one item updates one key of the map. */
  lemma SumsUpdate<K(!new)>(items: seq<Item<K>>, i: nat, sum: Sum)
    requires DistinctKeys(items) && i < |items|
    ensures var after := items[i := items[i].(sum := sum)];
            DistinctKeys(after) && Sums(after) == Sums(items)[items[i].key := sum]
  {
    var after := items[i := items[i].(sum := sum)];
    SumsKeys(items);
    SumsKeys(after);
    var l, r := Sums(after), Sums(items)[items[i].key := sum];
    forall k
      ensures k in l <==> k in r
    {
      if k in l {
        var j :| 0 <= j < |after| && after[j].key == k;
        assert items[j].key == k;
      }
      if k in Sums(items) {
        var j :| 0 <= j < |items| && items[j].key == k;
        assert after[j].key == k;
      }
      assert after[i].key == items[i].key;
    }
    forall k | k in l
      ensures l[k] == r[k]
    {
      var j :| 0 <= j < |after| && after[j].key == k;
      SumsAt(after, j);
      SumsAt(items, j);
    }
    assert l.Keys == r.Keys;
  }

  /** The position of a key, which is appended with a NULL sum when it is new. */
  method Slot<K(==,!new)>(s: SumSet<K>, key: K) returns (s': SumSet<K>, at: nat)
    requires ValidSet(s)
    ensures ValidSet(s') && at < |s'.items| && s'.items[at].key == key
    ensures Sums(s'.items) == if key in Sums(s.items) then Sums(s.items) else Sums(s.items)[key := Null]
  {
    SumsKeys(s.items);
    hide Sums;
    if s.index.Some? {
      if key in s.index.value {
        return s, s.index.value[key];
      }
    } else {
      var i := 0;
      while i < |s.items|
        invariant 0 <= i <= |s.items|
        invariant forall j :: 0 <= j < i ==> s.items[j].key != key
      {
        if s.items[i].key == key {
          return s, i;
        }
        i := i + 1;
      }
    }
    assert key !in Sums(s.items);
    var items := s.items + [Item(key, Null)];
    SumsSnoc(s.items, Item(key, Null));
    at := |items| - 1;
    if s.index.Some? {
      s' := SumSet(items, Some(s.index.value[key := at]));
    } else if |items| > SMALL_LIMIT {
      var index := BuildIndex(items);
      s' := SumSet(items, Some(index));
    } else {
      s' := SumSet(items, None);
    }
  }

  lemma SumsSnoc<K>(items: seq<Item<K>>, item: Item<K>)
    ensures Sums(items + [item]) == Sums(items)[item.key := item.sum]
  {
    assert (items + [item])[..|items|] == items;
  }

  method BuildIndex<K(==,!new)>(items: seq<Item<K>>) returns (index: map<K, nat>)
    requires DistinctKeys(items)
    ensures Indexes(index, items)
  {
    index := map[];
    var i := 0;
    while i < |items|
      invariant 0 <= i <= |items|
      invariant forall k :: k in index ==> index[k] < i && items[index[k]].key == k
      invariant forall j :: 0 <= j < i ==> items[j].key in index
    {
      index := index[items[i].key := i];
      i := i + 1;
    }
  }

  /** add: the set refines a map on both sides of the index switch. */
  method Add<K(==,!new)>(s: SumSet<K>, key: K, sum: Sum) returns (s': SumSet<K>)
    requires ValidSet(s)
    ensures ValidSet(s') && Sums(s'.items) == AddTo(Sums(s.items), key, sum)
  {
    var t, at := Slot(s, key);
    SumsAt(t.items, at);
    SumsUpdate(t.items, at, AddSum(t.items[at].sum, sum));
    s' := t.(items := t.items[at := t.items[at].(sum := AddSum(t.items[at].sum, sum))]);
    if s'.index.Some? {
      StillIndexed(t.index.value, t.items, at, AddSum(t.items[at].sum, sum));
    }
  }

  lemma StillIndexed<K(!new)>(index: map<K, nat>, items: seq<Item<K>>, at: nat, sum: Sum)
    requires at < |items| && Indexes(index, items)
    ensures Indexes(index, items[at := items[at].(sum := sum)])
  {
  }

  /** merge: every item of another set is added. */
  method MergeSet<K(==,!new)>(s: SumSet<K>, o: SumSet<K>) returns (s': SumSet<K>)
    requires ValidSet(s) && ValidSet(o)
    ensures ValidSet(s') && Sums(s'.items) == MergeSums(Sums(s.items), Sums(o.items))
  {
    s' := s;
    var i := 0;
    assert o.items[..0] == [];
    MergeSumsEmpty(Sums(s.items));
    while i < |o.items|
      invariant 0 <= i <= |o.items|
      invariant ValidSet(s') && Sums(s'.items) == MergeSums(Sums(s.items), Sums(o.items[..i]))
    {
      hide ValidSet, AddSum;
      assert o.items[..i + 1][..i] == o.items[..i];
      NotYet(o, i);
      MergeSumsAdd(Sums(s.items), Sums(o.items[..i]), o.items[i].key, o.items[i].sum);
      s' := Add(s', o.items[i].key, o.items[i].sum);
      i := i + 1;
    }
    assert o.items[..i] == o.items;
  }

  lemma NotYet<K(!new)>(o: SumSet<K>, i: nat)
    requires ValidSet(o) && i < |o.items|
    ensures o.items[i].key !in Sums(o.items[..i])
  {
    SumsKeys(o.items[..i]);
  }

  lemma MergeSumsAdd<K(!new)>(a: map<K, Sum>, b: map<K, Sum>, key: K, sum: Sum)
    requires key !in b
    ensures AddTo(MergeSums(a, b), key, sum) == MergeSums(a, b[key := sum])
  {
    var l, r := AddTo(MergeSums(a, b), key, sum), MergeSums(a, b[key := sum]);
    assert l.Keys == r.Keys;
  }

  // ---- Protocol sums and groups.

  datatype PortKey = PortKey(portNull: bool, protoNull: bool, port: int, proto: int)

  /** protoSums: integer keys, and the null key kept apart. */
  datatype ProtoSet = ProtoSet(sums: SumSet<int>, nullKey: Sum, hasNull: bool)

  ghost predicate ValidProtos(p: ProtoSet) {
    ValidSet(p.sums) && (!p.hasNull ==> p.nullKey == Null)
  }

  function ProtoMap(p: ProtoSet): map<ProtoKey, Sum> {
    KeyedProtos(Sums(p.sums.items), p.hasNull, p.nullKey)
  }

  function KeyedProtos(m: map<int, Sum>, hasNull: bool, nullKey: Sum): map<ProtoKey, Sum> {
    map k | k in (set p | p in m :: Proto(p)) + (if hasNull then {NullKey} else {}) ::
        if k.NullKey? then nullKey else m[k.id]
  }

  const NO_PROTOS: ProtoSet := ProtoSet(EmptySet<int>(), Null, false)

  lemma KeyedAt(m: map<int, Sum>, hasNull: bool, nullKey: Sum)
    ensures forall p :: Proto(p) in KeyedProtos(m, hasNull, nullKey) <==> p in m
    ensures NullKey in KeyedProtos(m, hasNull, nullKey) <==> hasNull
  {
  }

  method AddProto(p: ProtoSet, key: ProtoKey, sum: Sum) returns (p': ProtoSet)
    requires ValidProtos(p)
    ensures ValidProtos(p') && ProtoMap(p') == AddTo(ProtoMap(p), key, sum)
  {
    match key {
      case NullKey =>
        p' := p.(nullKey := AddSum(p.nullKey, sum), hasNull := true);
      case Proto(id) =>
        var sums := Add(p.sums, id, sum);
        p' := p.(sums := sums);
    }
    AddKeyed(Sums(p.sums.items), p.hasNull, p.nullKey, key, sum);
  }

  lemma AddKeyed(m: map<int, Sum>, hasNull: bool, nullKey: Sum, key: ProtoKey, sum: Sum)
    requires !hasNull ==> nullKey == Null
    ensures AddTo(KeyedProtos(m, hasNull, nullKey), key, sum)
         == match key
            case NullKey => KeyedProtos(m, true, AddSum(nullKey, sum))
            case Proto(id) => KeyedProtos(AddTo(m, id, sum), hasNull, nullKey)
  {
    KeyedAt(m, hasNull, nullKey);
    var l := AddTo(KeyedProtos(m, hasNull, nullKey), key, sum);
    match key
    case NullKey =>
      assert l.Keys == KeyedProtos(m, true, AddSum(nullKey, sum)).Keys;
    case Proto(id) =>
      KeyedAt(AddTo(m, id, sum), hasNull, nullKey);
      var r := KeyedProtos(AddTo(m, id, sum), hasNull, nullKey);
      forall k
        ensures k in l <==> k in r
      {
        if k.Proto? { assert Proto(k.id) == k; }
      }
      assert l.Keys == r.Keys;
  }

  method MergeProtos(p: ProtoSet, o: ProtoSet) returns (p': ProtoSet)
    requires ValidProtos(p) && ValidProtos(o)
    ensures ValidProtos(p') && ProtoMap(p') == MergeSums(ProtoMap(p), ProtoMap(o))
  {
    var sums := MergeSet(p.sums, o.sums);
    p' := p.(sums := sums);
    if o.hasNull {
      p' := p'.(nullKey := AddSum(p.nullKey, o.nullKey), hasNull := true);
    }
    MergeKeyed(Sums(p.sums.items), p.hasNull, p.nullKey, Sums(o.sums.items), o.hasNull, o.nullKey);
  }

  lemma MergeKeyed(a: map<int, Sum>, aHas: bool, aNull: Sum, b: map<int, Sum>, bHas: bool, bNull: Sum)
    requires (!aHas ==> aNull == Null) && (!bHas ==> bNull == Null)
    ensures MergeSums(KeyedProtos(a, aHas, aNull), KeyedProtos(b, bHas, bNull))
         == KeyedProtos(MergeSums(a, b), aHas || bHas, if bHas then AddSum(aNull, bNull) else aNull)
  {
    var x, y := KeyedProtos(a, aHas, aNull), KeyedProtos(b, bHas, bNull);
    var l := MergeSums(x, y);
    var r := KeyedProtos(MergeSums(a, b), aHas || bHas, if bHas then AddSum(aNull, bNull) else aNull);
    forall k
      ensures k in l <==> k in r
      ensures k in l ==> l[k] == r[k]
    {
      hide AddSum;
      KeyedSum(a, aHas, aNull, k);
      KeyedSum(b, bHas, bNull, k);
      KeyedSum(MergeSums(a, b), aHas || bHas, if bHas then AddSum(aNull, bNull) else aNull, k);
      hide KeyedProtos;
      AddNull(aNull);
    }
    assert l.Keys == r.Keys;
  }

  lemma AddNull(a: Sum)
    ensures AddSum(a, Null) == a == AddSum(Null, a)
  {
  }

  lemma KeyedSum(m: map<int, Sum>, hasNull: bool, nullKey: Sum, k: ProtoKey)
    requires !hasNull ==> nullKey == Null
    ensures k.Proto? ==>
            (k in KeyedProtos(m, hasNull, nullKey) <==> k.id in m)
            && SumAt(KeyedProtos(m, hasNull, nullKey), k) == SumAt(m, k.id)
    ensures k.NullKey? ==>
            (k in KeyedProtos(m, hasNull, nullKey) <==> hasNull)
            && SumAt(KeyedProtos(m, hasNull, nullKey), k) == nullKey
  {
    if k.Proto? { assert Proto(k.id) == k; }
  }

  /** The whole of a pair group: Counters, and the three port sets. */
  datatype Full = Full(
    counters: Counters,
    ports: map<PortKey, Sum>, txPorts: map<PortKey, Sum>, rxPorts: map<PortKey, Sum>)

  const NOTHING: Full := Full(EMPTY, map[], map[], map[])

  function MergeFull(a: Full, b: Full): Full {
    Full(Merge(a.counters, b.counters), MergeSums(a.ports, b.ports), MergeSums(a.txPorts, b.txPorts),
        MergeSums(a.rxPorts, b.rxPorts))
  }

  lemma MergeFullAssoc(a: Full, b: Full, c: Full)
    ensures MergeFull(MergeFull(a, b), c) == MergeFull(a, MergeFull(b, c))
  {
    MergeAssoc(a.counters, b.counters, c.counters);
    MergeSumsAssoc(a.ports, b.ports, c.ports);
    MergeSumsAssoc(a.txPorts, b.txPorts, c.txPorts);
    MergeSumsAssoc(a.rxPorts, b.rxPorts, c.rxPorts);
  }

  lemma MergeFullNothing(a: Full)
    ensures MergeFull(a, NOTHING) == a == MergeFull(NOTHING, a)
  {
    MergeEmpty(a.counters);
    MergeSumsEmpty(a.ports);
    MergeSumsEmpty(a.txPorts);
    MergeSumsEmpty(a.rxPorts);
  }

  class PairGroup {
    var bucket: Option<int>
    var tx: Sum
    var rx: Sum
    var txPkts: Sum
    var rxPkts: Sum
    var flows: Sum
    var directional: Option<int>
    var protocols: ProtoSet
    var txProto: ProtoSet
    var rxProto: ProtoSet
    var ports: SumSet<PortKey>
    var txPorts: SumSet<PortKey>
    var rxPorts: SumSet<PortKey>
    var dirty: bool

    ghost predicate Valid()
      reads this
    {
      && ValidProtos(protocols) && ValidProtos(txProto) && ValidProtos(rxProto)
      && ValidSet(ports) && ValidSet(txPorts) && ValidSet(rxPorts)
    }

    ghost function View(): Full
      reads this
    {
      Full(Counters(bucket, tx, rx, txPkts, rxPkts, flows, directional, ProtoMap(protocols), ProtoMap(txProto),
          ProtoMap(rxProto)),
           Sums(ports.items), Sums(txPorts.items), Sums(rxPorts.items))
    }

    constructor ()
      ensures Valid() && View() == NOTHING && !dirty
    {
      bucket, directional := None, None;
      tx, rx, txPkts, rxPkts, flows := Null, Null, Null, Null, Null;
      protocols, txProto, rxProto := NO_PROTOS, NO_PROTOS, NO_PROTOS;
      ports, txPorts, rxPorts := EmptySet(), EmptySet(), EmptySet();
      dirty := false;
      new;
      assert ProtoMap(NO_PROTOS) == map[];
    }

    /** merge: another partial group joins, as if its rows had been added here. */
    method Merge(o: PairGroup)
      requires Valid() && o.Valid() && o != this
      modifies this
      ensures Valid() && View() == MergeFull(old(View()), o.View())
      ensures dirty == (old(dirty) || o.dirty)
    {
      hide ValidProtos, ValidSet, ProtoMap, Sums, MergeSums, AddSum, MinOpt;
      MergeScalars(o);
      protocols := MergeProtos(protocols, o.protocols);
      txProto := MergeProtos(txProto, o.txProto);
      rxProto := MergeProtos(rxProto, o.rxProto);
      ports := MergeSet(ports, o.ports);
      txPorts := MergeSet(txPorts, o.txPorts);
      rxPorts := MergeSet(rxPorts, o.rxPorts);
      dirty := dirty || o.dirty;
    }

    method MergeScalars(o: PairGroup)
      requires o != this
      modifies this`bucket, this`tx, this`rx, this`txPkts, this`rxPkts, this`flows, this`directional
      ensures bucket == MinOpt(old(bucket), o.bucket) && directional == MinOpt(old(directional), o.directional)
      ensures tx == AddSum(old(tx), o.tx) && rx == AddSum(old(rx), o.rx)
      ensures txPkts == AddSum(old(txPkts), o.txPkts) && rxPkts == AddSum(old(rxPkts), o.rxPkts)
      ensures flows == AddSum(old(flows), o.flows)
    {
      if o.bucket.Some? && (bucket.None? || o.bucket.value < bucket.value) {
        bucket := o.bucket;
      }
      tx := AddSum(tx, o.tx);
      rx := AddSum(rx, o.rx);
      txPkts := AddSum(txPkts, o.txPkts);
      rxPkts := AddSum(rxPkts, o.rxPkts);
      flows := AddSum(flows, o.flows);
      if o.directional.Some? && (directional.None? || o.directional.value < directional.value) {
        directional := o.directional;
      }
    }
  }
}

/**
 Merging a packed hour back (mergePartition in closed_hour_cache.go), one key
 partition at a time, and the round trip through the packed form.

 The method's loops read a row's words between two offsets; EntryRows says
 what all of them read together. A partition function only picks rows, so the
 partitions of an entry, merged into empty maps, are together exactly the
 groups that were packed.
 */
module PackedMerge {
  import opened PairGroups
  import opened HourRollup
  import opened SumSets
  import opened PartitionMerge
  import opened PackedHour

  // ---- Merging back.

  method AddProtos(dst: ProtoSet, items: seq<Item<ProtoKey>>) returns (p: ProtoSet)
    requires ValidProtos(dst) && DistinctKeys(items)
    ensures ValidProtos(p) && ProtoMap(p) == MergeSums(ProtoMap(dst), Sums(items))
  {
    p := dst;
    var i := 0;
    MergeSumsEmpty(ProtoMap(dst));
    assert items[..0] == [];
    while i < |items|
      invariant 0 <= i <= |items|
      invariant ValidProtos(p) && ProtoMap(p) == MergeSums(ProtoMap(dst), Sums(items[..i]))
    {
      hide ValidProtos, ProtoMap, AddSum;
      assert items[..i + 1][..i] == items[..i];
      NewKey(items, i);
      MergeSumsAdd(ProtoMap(dst), Sums(items[..i]), items[i].key, items[i].sum);
      p := AddProto(p, items[i].key, items[i].sum);
      i := i + 1;
    }
    assert items[..i] == items;
  }

  lemma NewKey<K(!new)>(items: seq<Item<K>>, i: nat)
    requires DistinctKeys(items) && i < |items|
    ensures items[i].key !in Sums(items[..i])
  {
    SumsKeys(items[..i]);
  }

  method AddPorts(dst: SumSet<PortKey>, items: seq<Item<PortKey>>) returns (s: SumSet<PortKey>)
    requires ValidSet(dst) && DistinctKeys(items)
    ensures ValidSet(s) && Sums(s.items) == MergeSums(Sums(dst.items), Sums(items))
  {
    s := dst;
    var i := 0;
    MergeSumsEmpty(Sums(dst.items));
    assert items[..0] == [];
    while i < |items|
      invariant 0 <= i <= |items|
      invariant ValidSet(s) && Sums(s.items) == MergeSums(Sums(dst.items), Sums(items[..i]))
    {
      hide ValidSet, AddSum;
      assert items[..i + 1][..i] == items[..i];
      NewKey(items, i);
      MergeSumsAdd(Sums(dst.items), Sums(items[..i]), items[i].key, items[i].sum);
      s := Add(s, items[i].key, items[i].sum);
      i := i + 1;
    }
    assert items[..i] == items;
  }

  /** What mergePartition does to the group of one pair. */
  method MergePair(e: HourEntry, p: PackedPair, g: PairGroup)
    requires PairFits(e, p) && DistinctSlices(e, p) && g.Valid()
    modifies g
    ensures g.Valid() && g.View() == MergeFull(old(g.View()), PairView(e, p))
  {
    hide ValidProtos, ValidSet, ProtoMap, Sums, MergeSums, AddSum, ReadProtos, ReadPorts;
    MergePairScalars(e.hour, p, g);
    var o, q := p.protoOff, p.portOff;
    g.protocols := AddProtos(g.protocols, ReadProtos(e, o, p.nProto.0));
    g.txProto := AddProtos(g.txProto, ReadProtos(e, o + p.nProto.0, p.nProto.1));
    g.rxProto := AddProtos(g.rxProto, ReadProtos(e, o + p.nProto.0 + p.nProto.1, p.nProto.2));
    g.ports := AddPorts(g.ports, ReadPorts(e, q, p.nPort.0));
    g.txPorts := AddPorts(g.txPorts, ReadPorts(e, q + p.nPort.0, p.nPort.1));
    g.rxPorts := AddPorts(g.rxPorts, ReadPorts(e, q + p.nPort.0 + p.nPort.1, p.nPort.2));
  }

  method MergePairScalars(hour: int, p: PackedPair, g: PairGroup)
    modifies g`bucket, g`tx, g`rx, g`txPkts, g`rxPkts, g`flows, g`directional
    ensures g.bucket == MinOpt(old(g.bucket), if p.flags.bucket then Some(hour + p.bucketOff) else None)
    ensures g.directional == MinOpt(old(g.directional), if p.flags.dirSet then Some(Bit(p.flags.dir, 1)) else None)
    ensures g.tx == AddSum(old(g.tx), Flagged(p.flags.tx, p.tx)) && g.rx == AddSum(old(g.rx), Flagged(p.flags.rx, p.rx))
    ensures g.txPkts == AddSum(old(g.txPkts), Flagged(p.flags.txPkts, p.txPkts)) && g.rxPkts
            == AddSum(old(g.rxPkts), Flagged(p.flags.rxPkts, p.rxPkts))
    ensures g.flows == AddSum(old(g.flows), Flagged(p.flags.flows, p.flows))
  {
    if p.flags.bucket {
      var b := hour + p.bucketOff;
      if g.bucket.None? || b < g.bucket.value {
        g.bucket := Some(b);
      }
    }
    g.tx := AddSum(g.tx, Flagged(p.flags.tx, p.tx));
    g.rx := AddSum(g.rx, Flagged(p.flags.rx, p.rx));
    g.txPkts := AddSum(g.txPkts, Flagged(p.flags.txPkts, p.txPkts));
    g.rxPkts := AddSum(g.rxPkts, Flagged(p.flags.rxPkts, p.rxPkts));
    g.flows := AddSum(g.flows, Flagged(p.flags.flows, p.flows));
    if p.flags.dirSet {
      var dir := if p.flags.dir then 1 else 0;
      if g.directional.None? || dir < g.directional.value {
        g.directional := Some(dir);
      }
    }
  }

  ghost predicate Separate(grouped: map<PairKey, PairGroup>)
    reads grouped.Values
  {
    && (forall k :: k in grouped ==> grouped[k].Valid())
    && (forall a, b :: a in grouped && b in grouped && a != b ==> grouped[a] != grouped[b])
  }

  /** The decoded pairs of one partition among the first n, in order. */
  ghost function PartRows(e: HourEntry, n: nat, part: nat, parts: nat): seq<Row>
    requires AllFit(e) && n <= |e.pairs| && parts > 0
  {
    if n == 0 then []
    else PartRows(e, n - 1, part, parts) + if InPart(e.pairs[n - 1], part, parts) then [EntryRows(e)[n - 1]] else []
  }

  predicate InPart(p: PackedPair, part: nat, parts: nat)
    requires parts > 0
  {
    parts <= 1 || p.part % parts == part
  }

  /** Rows added one by one onto a map of groups. */
  function ScanOnto(m: Groups, rows: seq<Row>): Groups {
    if rows == [] then m else Absorb(ScanOnto(m, rows[..|rows| - 1]), rows[|rows| - 1].key, rows[|rows| - 1].full)
  }

  /** mergePartition: the pairs of one partition are added to the groups, as their rows would have been. */
  method MergePartition(e: HourEntry, grouped: map<PairKey, PairGroup>, part: nat, parts: nat)
    returns (merged: map<PairKey, PairGroup>)
    requires AllFit(e) && parts > 0 && Separate(grouped)
    modifies grouped.Values
    ensures Separate(merged) && fresh(merged.Values - grouped.Values)
    ensures ViewsOf(merged) == ScanOnto(old(ViewsOf(grouped)), PartRows(e, |e.pairs|, part, parts))
  {
    hide *;
    merged := grouped;
    var i := 0;
    NoPartRows(e, part, parts, ViewsOf(grouped));
    while i < |e.pairs|
      invariant 0 <= i <= |e.pairs|
      invariant Separate(merged) && fresh(merged.Values - grouped.Values)
      invariant ViewsOf(merged) == ScanOnto(old(ViewsOf(grouped)), PartRows(e, i, part, parts))
    {
      var p := e.pairs[i];
      PairInEntry(e, i);
      NextPartRows(e, i, part, parts, old(ViewsOf(grouped)));
      if InPart(p, part, parts) {
        merged := MergeOnePair(e, p, merged);
      }
      i := i + 1;
    }
  }

  lemma NoPartRows(e: HourEntry, part: nat, parts: nat, m: Groups)
    requires AllFit(e) && parts > 0
    ensures ScanOnto(m, PartRows(e, 0, part, parts)) == m
  {
  }

  lemma NextPartRows(e: HourEntry, i: nat, part: nat, parts: nat, m: Groups)
    requires AllFit(e) && i < |e.pairs| && parts > 0
    ensures var row := EntryRows(e)[i];
            ScanOnto(m, PartRows(e, i + 1, part, parts))
            == if InPart(e.pairs[i], part, parts)
                then Absorb(ScanOnto(m, PartRows(e, i, part, parts)), row.key, row.full)
               else ScanOnto(m, PartRows(e, i, part, parts))
  {
    var rows, row := PartRows(e, i, part, parts), EntryRows(e)[i];
    if InPart(e.pairs[i], part, parts) {
      assert (rows + [row])[..|rows|] == rows;
    } else {
      assert PartRows(e, i + 1, part, parts) == rows;
    }
  }

  lemma PairInEntry(e: HourEntry, i: nat)
    requires AllFit(e) && i < |e.pairs|
    ensures PairFits(e, e.pairs[i]) && DistinctSlices(e, e.pairs[i])
    ensures EntryRows(e)[i] == Row(KeyOfPair(e, e.pairs[i]), PairView(e, e.pairs[i]))
  {
    assert e.pairs[i] in e.pairs;
  }

  method MergeOnePair(e: HourEntry, p: PackedPair, grouped: map<PairKey, PairGroup>)
    returns (merged: map<PairKey, PairGroup>)
    requires PairFits(e, p) && DistinctSlices(e, p) && Separate(grouped)
    modifies grouped.Values
    ensures Separate(merged) && fresh(merged.Values - grouped.Values)
    ensures ViewsOf(merged) == Absorb(old(ViewsOf(grouped)), KeyOfPair(e, p), PairView(e, p))
  {
    hide PairView, KeyOfPair, DistinctSlices, PairFits, PairGroup.Valid, PairGroup.View, MergeFull;
    merged := grouped;
    var key := KeyOfPair(e, p);
    if key !in merged {
      var g := new PairGroup();
      merged := merged[key := g];
    }
    assert Separate(merged);
    ghost var before := ViewsOf(merged);
    assert before[key] == FullAt(old(ViewsOf(grouped)), key);
    MergePair(e, p, merged[key]);
  }

  // ---- The round trip.

  /** Rows with different keys make exactly the map they list. */
  lemma {:induction false} ScanOfListing(rows: seq<Row>, m: Groups)
    requires Lists(rows, m)
    ensures ScanOnto(map[], rows) == m
    decreases |rows|
  {
    hide MergeFull;
    if rows == [] {
      assert m == map[];
    } else {
      var last := rows[|rows| - 1];
      assert last in rows;
      ListsFront(rows, m);
      ScanOfListing(rows[..|rows| - 1], m - {last.key});
      MergeFullNothing(last.full);
    }
  }

  /** The rows of one partition list that part of the map. */
  lemma {:induction false} PartIsListed(e: HourEntry, n: nat, part: nat, parts: nat, hash: PairKey -> nat, m: Groups)
    requires AllFit(e) && Hashed(e, hash) && n <= |e.pairs| && parts > 0 && part < parts
    requires Lists(EntryRows(e)[..n], m)
    ensures Lists(PartRows(e, n, part, parts), Part(m, hash, part, parts))
  {
    hide AllFit, Hashed, PairView, KeyOfPair, Lists;
    if n == 0 {
      NothingListed(m, hash, part, parts);
      assert EntryRows(e)[..0] == [];
    } else {
      var rows := EntryRows(e);
      var last := rows[n - 1];
      assert rows[..n][..n - 1] == rows[..n - 1];
      assert rows[..n][n - 1] == last;
      ListsFront(rows[..n], m);
      PartIsListed(e, n - 1, part, parts, hash, m - {last.key});
      LastRow(rows[..n], m);
      assert e.pairs[n - 1].part == hash(last.key) by { HashedAt(e, hash, n - 1); }
      var rest := Part(m - {last.key}, hash, part, parts);
      if InPart(e.pairs[n - 1], part, parts) {
        assert hash(last.key) % parts == part by { OnePart(hash(last.key), part, parts); }
        assert Part(m, hash, part, parts) == rest[last.key := last.full];
        ListsSnoc(PartRows(e, n - 1, part, parts), rest, last.key, last.full);
        assert last == Row(last.key, last.full);
      } else {
        assert Part(m, hash, part, parts) == rest;
        assert PartRows(e, n, part, parts) == PartRows(e, n - 1, part, parts);
      }
    }
  }

  lemma OnePart(h: nat, part: nat, parts: nat)
    requires parts > 0 && part < parts && (parts <= 1 || h % parts == part)
    ensures h % parts == part
  {
    if parts == 1 {
      assert h % 1 == 0;
    }
  }

  lemma HashedAt(e: HourEntry, hash: PairKey -> nat, i: nat)
    requires AllFit(e) && Hashed(e, hash) && i < |e.pairs|
    ensures e.pairs[i].part == hash(EntryRows(e)[i].key)
  {
  }

  lemma LastRow(rows: seq<Row>, m: Groups)
    requires Lists(rows, m) && rows != []
    ensures var last := rows[|rows| - 1]; last.key in m && m[last.key] == last.full
  {
    assert rows[|rows| - 1] in rows;
  }

  lemma NothingListed(m: Groups, hash: PairKey -> nat, part: nat, parts: nat)
    requires parts > 0
    ensures Lists([], m) ==> Lists([], Part(m, hash, part, parts))
  {
  }

  /**
   Whenever packHour accepts the groups m, merging partition part of parts
   into an empty map gives exactly the groups of m whose hash falls there, so
   all partitions together give m back.
   */
  lemma PackedRoundTrip(e: HourEntry, hash: PairKey -> nat, m: Groups, parts: nat)
    requires AllFit(e) && Hashed(e, hash) && Lists(EntryRows(e), m) && parts > 0
    ensures forall part: nat :: part < parts ==>
              ScanOnto(map[], PartRows(e, |e.pairs|, part, parts)) == Part(m, hash, part, parts)
    ensures forall k :: k in m ==> hash(k) % parts < parts && k in Part(m, hash, hash(k) % parts, parts)
  {
    forall part: nat | part < parts
      ensures ScanOnto(map[], PartRows(e, |e.pairs|, part, parts)) == Part(m, hash, part, parts)
    {
      assert EntryRows(e)[..|e.pairs|] == EntryRows(e);
      PartIsListed(e, |e.pairs|, part, parts, hash, m);
      ScanOfListing(PartRows(e, |e.pairs|, part, parts), Part(m, hash, part, parts));
    }
  }
}

/**
 Partial sums of one node pair (pairGroup in node_pair_read.go) and the ways
 they are added.

 Merging is a commutative monoid: EMPTY adds nothing, and the order and the
 grouping of merges do not matter. That is what makes every regrouping of rows
 in this project (hours, spans, partitions, cached hours) give the same
 totals.
 */
module PairGroups {

  datatype Option<+T> = None | Some(value: T)

  /** A running SUM: NULL until a number arrives. */
  datatype Sum = Null | Num(n: int)

  function AddSum(a: Sum, b: Sum): Sum {
    match a
    case Null => b
    case Num(x) => if b.Null? then a else Num(x + b.n)
  }

  function SumAt<K>(m: map<K, Sum>, k: K): Sum {
    if k in m then m[k] else Null
  }

  /** Key by key sum; a key held by either side is kept even when its sum is NULL. */
  function MergeSums<K>(a: map<K, Sum>, b: map<K, Sum>): map<K, Sum> {
    map k | k in a.Keys + b.Keys :: AddSum(SumAt(a, k), SumAt(b, k))
  }

  lemma MergeSumsAssoc<K>(a: map<K, Sum>, b: map<K, Sum>, c: map<K, Sum>)
    ensures MergeSums(MergeSums(a, b), c) == MergeSums(a, MergeSums(b, c))
  {
    var l, r := MergeSums(MergeSums(a, b), c), MergeSums(a, MergeSums(b, c));
    assert l.Keys == r.Keys;
    forall k | k in l
      ensures l[k] == r[k]
    {
      assert SumAt(MergeSums(a, b), k) == AddSum(SumAt(a, k), SumAt(b, k));
      assert SumAt(MergeSums(b, c), k) == AddSum(SumAt(b, k), SumAt(c, k));
    }
  }

  lemma MergeSumsComm<K>(a: map<K, Sum>, b: map<K, Sum>)
    ensures MergeSums(a, b) == MergeSums(b, a)
  {
    assert MergeSums(a, b).Keys == MergeSums(b, a).Keys;
  }

  lemma MergeSumsEmpty<K>(a: map<K, Sum>)
    ensures MergeSums(a, map[]) == a == MergeSums(map[], a)
  {
    assert MergeSums(a, map[]).Keys == a.Keys == MergeSums(map[], a).Keys;
  }

  /** MIN over optional values: absent is the identity. */
  function MinOpt(a: Option<int>, b: Option<int>): Option<int> {
    if a.None? then b
    else if b.None? then a
    else if b.value < a.value then b else a
  }

  /** A protocol number, or the null key a bare JSON scalar leaves behind. */
  datatype ProtoKey = NullKey | Proto(id: int)

  /** pairGroup without its port sets. */
  datatype Counters = Counters(
    bucket: Option<int>,
    tx: Sum, rx: Sum, txPkts: Sum, rxPkts: Sum, flows: Sum,
    directional: Option<int>,
    protocols: map<ProtoKey, Sum>,
    txProto: map<ProtoKey, Sum>,
    rxProto: map<ProtoKey, Sum>)

  const EMPTY: Counters := Counters(None, Null, Null, Null, Null, Null, None, map[], map[], map[])

  function Merge(a: Counters, b: Counters): Counters {
    Counters(
      MinOpt(a.bucket, b.bucket),
      AddSum(a.tx, b.tx), AddSum(a.rx, b.rx), AddSum(a.txPkts, b.txPkts), AddSum(a.rxPkts, b.rxPkts),
          AddSum(a.flows, b.flows),
      MinOpt(a.directional, b.directional),
      MergeSums(a.protocols, b.protocols), MergeSums(a.txProto, b.txProto), MergeSums(a.rxProto, b.rxProto))
  }

  lemma MergeAssoc(a: Counters, b: Counters, c: Counters)
    ensures Merge(Merge(a, b), c) == Merge(a, Merge(b, c))
  {
    MergeSumsAssoc(a.protocols, b.protocols, c.protocols);
    MergeSumsAssoc(a.txProto, b.txProto, c.txProto);
    MergeSumsAssoc(a.rxProto, b.rxProto, c.rxProto);
  }

  lemma MergeComm(a: Counters, b: Counters)
    ensures Merge(a, b) == Merge(b, a)
  {
    MergeSumsComm(a.protocols, b.protocols);
    MergeSumsComm(a.txProto, b.txProto);
    MergeSumsComm(a.rxProto, b.rxProto);
  }

  lemma MergeEmpty(a: Counters)
    ensures Merge(a, EMPTY) == a == Merge(EMPTY, a)
  {
    MergeSumsEmpty(a.protocols);
    MergeSumsEmpty(a.txProto);
    MergeSumsEmpty(a.rxProto);
  }

  /** Adding x in the middle of a merge is adding it at the end. */
  lemma MergeSwap(a: Counters, b: Counters, x: Counters)
    ensures Merge(Merge(a, x), b) == Merge(Merge(a, b), x)
  {
    MergeAssoc(a, x, b);
    MergeAssoc(a, b, x);
    MergeComm(x, b);
  }
}

/**
 What every stored row is a sum of, column by column (hour_rollup.go,
 aggregate_queries.go): an hour row sums its surviving minutes at or below the
 mark, and a minute row the deltas that landed in it since retention.
 */
module HourSums {
  import opened GoInts
  import opened PairGroups
  import opened HourRollup
  import opened FiniteSums
  import opened RollupStore

  /** The surviving minutes of an hour row that the mark has reached. */
  function MinutesUnder(t: Tables, hk: HourKey): set<MinuteKey> {
    set mk | mk in t.minutes && mk.pair == hk.pair && hk.hour <= mk.bucket < hk.hour + HOUR && mk.bucket <= t.mark
  }

  datatype Protocols = Both | Sent | Received

  /** A number of a row: one of its columns, or the bytes of one protocol. */
  datatype Column = Tx | Rx | TxPkts | RxPkts | Flows | Bytes(of: Protocols, p: int)

  function ProtocolsOf(of: Protocols, row: MinuteRow): map<int, int> {
    match of
    case Both => row.protocolBytes
    case Sent => row.txProto
    case Received => row.rxProto
  }

  function Number(column: Column, row: MinuteRow): int {
    match column
    case Tx => row.tx
    case Rx => row.rx
    case TxPkts => row.txPkts
    case RxPkts => row.rxPkts
    case Flows => row.flows
    case Bytes(of, p) => IntAt(ProtocolsOf(of, row), p)
  }

  /** What each minute row adds to a column. */
  function Adds(minutes: Minutes, column: Column): MinuteKey -> int {
    (mk: MinuteKey) => if mk in minutes then Number(column, minutes[mk]) else 0
  }

  /** The sum of a column over minute rows. */
  ghost function Total(minutes: Minutes, rows: set<MinuteKey>, column: Column): int {
    SumOver(rows, Adds(minutes, column))
  }

  /** A protocol column has a key exactly when a row has it, with the sum of the rows' bytes. */
  ghost predicate SumsUp(sums: map<ProtoKey, Sum>, minutes: Minutes, rows: set<MinuteKey>, of: Protocols)
    requires forall mk :: mk in rows ==> mk in minutes
  {
    && (forall k :: k in sums <==> k.Proto? && exists mk :: mk in rows && k.id in ProtocolsOf(of, minutes[mk]))
    && forall p :: Proto(p) in sums ==> sums[Proto(p)] == Num(Total(minutes, rows, Bytes(of, p)))
  }

  /**
   In every reachable state each column of an hour row is the sum of that
   column over the minutes it stands for, and it is directional exactly when
   all of them are.
   */
  lemma HourRowsAreColumnSums(writes: seq<Write>, hk: HourKey)
    requires hk in Run(writes).hours
    ensures var t := Run(writes);
            var c, rows := t.hours[hk], MinutesUnder(t, hk);
            && c.tx == Num(Total(t.minutes, rows, Tx)) && c.rx == Num(Total(t.minutes, rows, Rx))
            && c.txPkts == Num(Total(t.minutes, rows, TxPkts))
            && c.rxPkts == Num(Total(t.minutes, rows, RxPkts))
            && c.flows == Num(Total(t.minutes, rows, Flows))
            && SumsUp(c.protocols, t.minutes, rows, Both)
            && SumsUp(c.txProto, t.minutes, rows, Sent)
            && SumsUp(c.rxProto, t.minutes, rows, Received)
    ensures var t := Run(writes);
            t.hours[hk].directional
            == Some(if forall mk :: mk in MinutesUnder(t, hk) ==> t.minutes[mk].directional then 1 else 0)
  {
    var t := Run(writes);
    var lo, hi := hk.hour, RolledEnd(hk.hour + HOUR, t.mark);
    HourRowIsFold(t, hk);
    hide *;
    UnderIsIn(t, hk);
    FoldNumbers(t.minutes, hk.pair, lo, hi);
    FoldProtocols(t.minutes, hk.pair, lo, hi);
    FoldDirectional(t.minutes, hk.pair, lo, hi);
  }

  lemma HourRowIsFold(t: Tables, hk: HourKey)
    requires Consistent(t) && hk in t.hours
    ensures t.hours[hk] == Fold(t.minutes, hk.pair, hk.hour, RolledEnd(hk.hour + HOUR, t.mark))
    ensures In(t.minutes, hk.pair, hk.hour, RolledEnd(hk.hour + HOUR, t.mark)) != {}
  {
    var lo, hi := hk.hour, RolledEnd(hk.hour + HOUR, t.mark);
    HoursOfAt(t.minutes, t.mark, hk);
    FoldEmpty(t.minutes, hk.pair, lo, hi);
    hide Fold, HoursOf;
    var b: nat :| lo <= b < hi && MinuteKey(b, hk.pair) in t.minutes;
    assert MinuteKey(b, hk.pair) in In(t.minutes, hk.pair, lo, hi);
  }

  /** A pair's minutes in [lo, hi). */
  function In(minutes: Minutes, pair: PairKey, lo: int, hi: int): set<MinuteKey> {
    set mk | mk in minutes && mk.pair == pair && lo <= mk.bucket < hi
  }

  lemma UnderIsIn(t: Tables, hk: HourKey)
    ensures MinutesUnder(t, hk) == In(t.minutes, hk.pair, hk.hour, RolledEnd(hk.hour + HOUR, t.mark))
  {
  }

  /** The minutes of a range with one more second. */
  lemma InNext(minutes: Minutes, pair: PairKey, lo: int, hi: int)
    requires lo < hi
    ensures var mk, rest := MinuteKey(if hi > 0 then hi - 1 else 0, pair), In(minutes, pair, lo, hi - 1);
            if hi > 0 && mk in minutes then In(minutes, pair, lo, hi) == rest + {mk} && mk !in rest
            else In(minutes, pair, lo, hi) == rest
  {
    forall mk | mk in In(minutes, pair, lo, hi)
      ensures mk == MinuteKey(mk.bucket, pair)
    {
    }
  }

  lemma TotalNext(minutes: Minutes, rows: set<MinuteKey>, mk: MinuteKey, column: Column)
    requires mk !in rows && mk in minutes
    ensures Total(minutes, rows + {mk}, column) == Total(minutes, rows, column) + Number(column, minutes[mk])
  {
    SumTake(rows + {mk}, Adds(minutes, column), mk);
    assert rows + {mk} - {mk} == rows;
  }

  lemma TotalNothing(minutes: Minutes, column: Column)
    ensures Total(minutes, {}, column) == 0
  {
  }

  function HourNumber(column: Column, c: Counters): Sum {
    match column
    case Tx => c.tx
    case Rx => c.rx
    case TxPkts => c.txPkts
    case RxPkts => c.rxPkts
    case Flows => c.flows
    case Bytes(of, p) => SumAt(HourProtocols(of, c), Proto(p))
  }

  function HourProtocols(of: Protocols, c: Counters): map<ProtoKey, Sum> {
    match of
    case Both => c.protocols
    case Sent => c.txProto
    case Received => c.rxProto
  }

  lemma MergeAdds(column: Column, a: Counters, b: Counters)
    requires !column.Bytes?
    ensures HourNumber(column, Merge(a, b)) == AddSum(HourNumber(column, a), HourNumber(column, b))
  {
  }

  lemma LiftHas(column: Column, b: int, row: MinuteRow)
    requires !column.Bytes?
    ensures HourNumber(column, Lift(b, row)) == Num(Number(column, row))
  {
  }

  /** A column of a fold is the sum of that column over its rows, and NULL without rows. */
  lemma {:induction false} FoldNumber(minutes: Minutes, pair: PairKey, lo: int, hi: int, column: Column)
    requires !column.Bytes?
    ensures var rows := In(minutes, pair, lo, hi);
            HourNumber(column, Fold(minutes, pair, lo, hi))
            == if rows == {} then Null else Num(Total(minutes, rows, column))
    decreases hi - lo
  {
    hide Merge, Lift, Total, In, HourNumber, Number;
    if lo < hi {
      FoldNumber(minutes, pair, lo, hi - 1, column);
      InNext(minutes, pair, lo, hi);
      var rest := In(minutes, pair, lo, hi - 1);
      MergeAdds(column, Fold(minutes, pair, lo, hi - 1), MinuteAt(minutes, pair, hi - 1));
      if hi > 0 && MinuteKey(hi - 1, pair) in minutes {
        var mk := MinuteKey(hi - 1, pair);
        LiftHas(column, hi - 1, minutes[mk]);
        TotalNext(minutes, rest, mk, column);
        TotalNothing(minutes, column);
      } else {
        assert HourNumber(column, EMPTY) == Null by { EmptyHas(column); }
      }
    } else {
      NothingIn(minutes, pair, lo, hi);
      EmptyHas(column);
    }
  }

  lemma EmptyHas(column: Column)
    ensures HourNumber(column, EMPTY) == Null
  {
  }

  lemma FoldNumbers(minutes: Minutes, pair: PairKey, lo: int, hi: int)
    requires In(minutes, pair, lo, hi) != {}
    ensures var c, rows := Fold(minutes, pair, lo, hi), In(minutes, pair, lo, hi);
            && c.tx == Num(Total(minutes, rows, Tx)) && c.rx == Num(Total(minutes, rows, Rx))
            && c.txPkts == Num(Total(minutes, rows, TxPkts)) && c.rxPkts == Num(Total(minutes, rows, RxPkts))
            && c.flows == Num(Total(minutes, rows, Flows))
  {
    hide Fold, In, Total;
    FoldNumber(minutes, pair, lo, hi, Tx);
    FoldNumber(minutes, pair, lo, hi, Rx);
    FoldNumber(minutes, pair, lo, hi, TxPkts);
    FoldNumber(minutes, pair, lo, hi, RxPkts);
    FoldNumber(minutes, pair, lo, hi, Flows);
  }

  /** A protocol column of a fold holds the keys of its rows, each with the sum of their bytes. */
  lemma {:induction false} FoldSums(minutes: Minutes, pair: PairKey, lo: int, hi: int, of: Protocols)
    ensures SumsUp(HourProtocols(of, Fold(minutes, pair, lo, hi)), minutes, In(minutes, pair, lo, hi), of)
    decreases hi - lo
  {
    hide MergeSums, ProtoSums, SumsUp, In;
    if lo < hi {
      FoldSums(minutes, pair, lo, hi - 1, of);
      InNext(minutes, pair, lo, hi);
      var before, rest := HourProtocols(of, Fold(minutes, pair, lo, hi - 1)), In(minutes, pair, lo, hi - 1);
      if hi > 0 && MinuteKey(hi - 1, pair) in minutes {
        AllStored(minutes, pair, lo, hi - 1);
        OneMoreRow(before, minutes, rest, MinuteKey(hi - 1, pair), of);
      } else {
        MergeSumsEmpty(before);
      }
    } else {
      NothingIn(minutes, pair, lo, hi);
      NoRowsSumUp(minutes, of);
    }
  }

  lemma AllStored(minutes: Minutes, pair: PairKey, lo: int, hi: int)
    ensures forall mk :: mk in In(minutes, pair, lo, hi) ==> mk in minutes
  {
  }

  lemma NoRowsSumUp(minutes: Minutes, of: Protocols)
    ensures SumsUp(map[], minutes, {}, of)
  {
  }

  lemma OneMoreRow(sums: map<ProtoKey, Sum>, minutes: Minutes, rows: set<MinuteKey>, mk: MinuteKey, of: Protocols)
    requires mk !in rows && mk in minutes && (forall k :: k in rows ==> k in minutes)
    requires SumsUp(sums, minutes, rows, of)
    ensures SumsUp(MergeSums(sums, ProtoSums(ProtocolsOf(of, minutes[mk]))), minutes, rows + {mk}, of)
  {
    var more := ProtocolsOf(of, minutes[mk]);
    var next := MergeSums(sums, ProtoSums(more));
    assert next.Keys == sums.Keys + ProtoSums(more).Keys;
    KeysWithOneMore(sums, next, minutes, rows, mk, of);
    forall p | Proto(p) in next
      ensures next[Proto(p)] == Num(Total(minutes, rows + {mk}, Bytes(of, p)))
    {
      BytesWithOneMore(sums, minutes, rows, mk, of, p);
    }
  }

  lemma BytesWithOneMore(sums: map<ProtoKey, Sum>, minutes: Minutes, rows: set<MinuteKey>, mk: MinuteKey,
                         of: Protocols, p: int)
    requires mk !in rows && mk in minutes && (forall k :: k in rows ==> k in minutes)
    requires SumsUp(sums, minutes, rows, of)
    ensures var next := MergeSums(sums, ProtoSums(ProtocolsOf(of, minutes[mk])));
            Proto(p) in next ==> next[Proto(p)] == Num(Total(minutes, rows + {mk}, Bytes(of, p)))
  {
    var more := ProtocolsOf(of, minutes[mk]);
    ProtoSumsAre(more);
    TotalNext(minutes, rows, mk, Bytes(of, p));
    if Proto(p) !in sums {
      assert forall x :: x in rows ==> p !in ProtocolsOf(of, minutes[x]) by {
        forall x | x in rows
          ensures p !in ProtocolsOf(of, minutes[x])
        {
          assert Proto(p).id == p;
        }
      }
      TotalZero(minutes, rows, of, p);
    }
    hide Total, ProtoSums, SumsUp;
    assert Proto(p) in sums ==> sums[Proto(p)] == Num(Total(minutes, rows, Bytes(of, p)));
  }

  lemma KeysWithOneMore(sums: map<ProtoKey, Sum>, next: map<ProtoKey, Sum>, minutes: Minutes, rows: set<MinuteKey>,
                        mk: MinuteKey, of: Protocols)
    requires mk in minutes && (forall k :: k in rows ==> k in minutes)
    requires forall k :: k in sums <==> k.Proto? && exists x :: x in rows && k.id in ProtocolsOf(of, minutes[x])
    requires next.Keys == sums.Keys + ProtoSums(ProtocolsOf(of, minutes[mk])).Keys
    ensures forall k :: k in next <==> k.Proto? && exists x :: x in rows + {mk} && k.id in ProtocolsOf(of, minutes[x])
  {
    ProtoSumsAre(ProtocolsOf(of, minutes[mk]));
    hide ProtoSums, ProtocolsOf;
    forall k
      ensures k in next <==> k.Proto? && exists x :: x in rows + {mk} && k.id in ProtocolsOf(of, minutes[x])
    {
      assert k in next <==> k in sums || (k.Proto? && k.id in ProtocolsOf(of, minutes[mk]));
      if k.Proto? && k.id in ProtocolsOf(of, minutes[mk]) {
        assert mk in rows + {mk};
      }
      if k in sums {
        var x :| x in rows && k.id in ProtocolsOf(of, minutes[x]);
        assert x in rows + {mk};
      }
    }
  }

  lemma ProtoSumsAre(m: map<int, int>)
    ensures forall k :: k in ProtoSums(m) <==> k.Proto? && k.id in m
    ensures forall p :: Proto(p) in ProtoSums(m) ==> ProtoSums(m)[Proto(p)] == Num(m[p])
  {
    forall k
      ensures k in ProtoSums(m) <==> k.Proto? && k.id in m
    {
      if k.Proto? {
        assert k == Proto(k.id);
      }
    }
  }

  lemma TotalZero(minutes: Minutes, rows: set<MinuteKey>, of: Protocols, p: int)
    requires forall x :: x in rows ==> x in minutes && p !in ProtocolsOf(of, minutes[x])
    ensures Total(minutes, rows, Bytes(of, p)) == 0
  {
    SumZero(rows, Adds(minutes, Bytes(of, p)));
  }

  lemma FoldProtocols(minutes: Minutes, pair: PairKey, lo: int, hi: int)
    ensures var c, rows := Fold(minutes, pair, lo, hi), In(minutes, pair, lo, hi);
            && SumsUp(c.protocols, minutes, rows, Both) && SumsUp(c.txProto, minutes, rows, Sent)
            && SumsUp(c.rxProto, minutes, rows, Received)
  {
    hide SumsUp, Fold;
    FoldSums(minutes, pair, lo, hi, Both);
    FoldSums(minutes, pair, lo, hi, Sent);
    FoldSums(minutes, pair, lo, hi, Received);
  }

  lemma {:induction false} FoldDirectional(minutes: Minutes, pair: PairKey, lo: int, hi: int)
    ensures var c, rows := Fold(minutes, pair, lo, hi), In(minutes, pair, lo, hi);
            c.directional == if rows == {} then None
                             else Some(if forall mk :: mk in rows ==> minutes[mk].directional then 1 else 0)
    decreases hi - lo
  {
    hide MergeSums, ProtoSums, In;
    if lo < hi {
      FoldDirectional(minutes, pair, lo, hi - 1);
      InNext(minutes, pair, lo, hi);
    } else {
      assert In(minutes, pair, lo, hi) == {} by { NothingIn(minutes, pair, lo, hi); }
    }
  }

  lemma NothingIn(minutes: Minutes, pair: PairKey, lo: int, hi: int)
    requires hi <= lo
    ensures In(minutes, pair, lo, hi) == {}
  {
  }

  // ---- Minute rows.

  /** The rows of a batch that land in a minute of a pair. */
  function Landing(aggs: seq<Aggregate>, mk: MinuteKey): seq<MinuteRow> {
    if aggs == [] then []
    else
      var a := aggs[|aggs| - 1];
      Landing(aggs[..|aggs| - 1], mk)
      + if a.pair == mk.pair && (a.bucket / MINUTE) * MINUTE == mk.bucket then [a.row] else []
  }

  /** The rows that landed in a minute of a pair since retention last passed it. */
  function Landed(writes: seq<Write>, mk: MinuteKey): seq<MinuteRow> {
    if writes == [] then []
    else
      var before := Landed(writes[..|writes| - 1], mk);
      match writes[|writes| - 1]
      case Deltas(aggs, _) => before + Landing(aggs, mk)
      case Retention(cutoff) => if mk.bucket < cutoff then [] else before
  }

  function SumOf(rows: seq<MinuteRow>, column: Column): int {
    if rows == [] then 0 else SumOf(rows[..|rows| - 1], column) + Number(column, rows[|rows| - 1])
  }

  ghost predicate AddsUp(sums: map<int, int>, rows: seq<MinuteRow>, of: Protocols) {
    && (forall p :: p in sums <==> exists r :: r in rows && p in ProtocolsOf(of, r))
    && forall p :: p in sums ==> sums[p] == SumOf(rows, Bytes(of, p))
  }

  /** What a minute row is when rows have landed in it. */
  ghost predicate IsSumOf(row: MinuteRow, rows: seq<MinuteRow>) {
    && row.tx == SumOf(rows, Tx) && row.rx == SumOf(rows, Rx) && row.flows == SumOf(rows, Flows)
    && row.txPkts == SumOf(rows, TxPkts) && row.rxPkts == SumOf(rows, RxPkts)
    && AddsUp(row.protocolBytes, rows, Both) && AddsUp(row.txProto, rows, Sent)
    && AddsUp(row.rxProto, rows, Received)
    && (row.directional <==> forall r :: r in rows ==> r.directional)
    && (forall p :: p in row.protocols <==> exists r :: r in rows && p in r.protocols)
  }

  /**
   In every reachable state a minute row is there exactly when a delta landed
   in it that retention has not passed since, and it is their sum, column by
   column.
   */
  lemma {:induction false} MinuteRowsAreDeltaSums(writes: seq<Write>, mk: MinuteKey)
    ensures mk in Run(writes).minutes <==> Landed(writes, mk) != []
    ensures mk in Run(writes).minutes ==> IsSumOf(Run(writes).minutes[mk], Landed(writes, mk))
  {
    hide HoursOf, IsSumOf, RolledMark;
    if writes != [] {
      var front, last := writes[..|writes| - 1], writes[|writes| - 1];
      MinuteRowsAreDeltaSums(front, mk);
      if last.Deltas? {
        BatchAdds(Run(front).minutes, last.aggs, mk, Landed(front, mk));
      }
    }
  }

  lemma {:induction false} BatchAdds(minutes: Minutes, aggs: seq<Aggregate>, mk: MinuteKey, rows: seq<MinuteRow>)
    requires mk in minutes <==> rows != []
    requires mk in minutes ==> IsSumOf(minutes[mk], rows)
    ensures var after := UpsertAll(minutes, aggs);
            && (mk in after <==> rows + Landing(aggs, mk) != [])
            && (mk in after ==> IsSumOf(after[mk], rows + Landing(aggs, mk)))
  {
    hide IsSumOf, AddRow;
    if aggs == [] {
      assert rows + [] == rows;
    } else {
      var front, a := aggs[..|aggs| - 1], aggs[|aggs| - 1];
      BatchAdds(minutes, front, mk, rows);
      var before, list := UpsertAll(minutes, front), rows + Landing(front, mk);
      if KeyOf(a) == mk {
        assert rows + Landing(aggs, mk) == list + [a.row];
        if mk in before {
          RowAdds(before[mk], list, a.row);
        } else {
          OneRow(a.row);
          assert list + [a.row] == [a.row];
        }
      } else {
        assert rows + Landing(aggs, mk) == list;
      }
    }
  }

  lemma OneRow(row: MinuteRow)
    ensures IsSumOf(row, [row])
  {
    assert [row][..0] == [];
    assert forall column :: SumOf([row], column) == Number(column, row);
    hide SumOf;
    OneColumn(row, Both);
    OneColumn(row, Sent);
    OneColumn(row, Received);
    hide AddsUp;
  }

  lemma OneColumn(row: MinuteRow, of: Protocols)
    ensures AddsUp(ProtocolsOf(of, row), [row], of)
  {
    assert [row][0] == row && [row][..0] == [];
    forall p
      ensures p in ProtocolsOf(of, row) <==> exists r :: r in [row] && p in ProtocolsOf(of, r)
    {
      if p in ProtocolsOf(of, row) {
        assert row in [row];
      }
    }
  }

  lemma SumOfSnoc(rows: seq<MinuteRow>, r: MinuteRow, column: Column)
    ensures SumOf(rows + [r], column) == SumOf(rows, column) + Number(column, r)
  {
    assert (rows + [r])[..|rows|] == rows;
  }

  lemma RowAdds(row: MinuteRow, rows: seq<MinuteRow>, more: MinuteRow)
    requires IsSumOf(row, rows)
    ensures IsSumOf(AddRow(row, more), rows + [more])
  {
    hide SumOf, AddBytes, AddsUp;
    SumOfSnoc(rows, more, Tx);
    SumOfSnoc(rows, more, Rx);
    SumOfSnoc(rows, more, TxPkts);
    SumOfSnoc(rows, more, RxPkts);
    SumOfSnoc(rows, more, Flows);
    ColumnAdds(row.protocolBytes, rows, more, Both);
    ColumnAdds(row.txProto, rows, more, Sent);
    ColumnAdds(row.rxProto, rows, more, Received);
    assert forall r :: r in rows + [more] <==> r in rows || r == more;
  }

  lemma ColumnAdds(sums: map<int, int>, rows: seq<MinuteRow>, more: MinuteRow, of: Protocols)
    requires AddsUp(sums, rows, of)
    ensures AddsUp(AddBytes(sums, ProtocolsOf(of, more)), rows + [more], of)
  {
    hide SumOf;
    var next := AddBytes(sums, ProtocolsOf(of, more));
    assert forall r :: r in rows + [more] <==> r in rows || r == more;
    forall p | p in next
      ensures next[p] == SumOf(rows + [more], Bytes(of, p))
    {
      SumOfSnoc(rows, more, Bytes(of, p));
      if p !in sums {
        NotListed(rows, of, p);
      }
    }
  }

  lemma {:induction false} NotListed(rows: seq<MinuteRow>, of: Protocols, p: int)
    requires forall r :: r in rows ==> p !in ProtocolsOf(of, r)
    ensures SumOf(rows, Bytes(of, p)) == 0
  {
    if rows != [] {
      NotListed(rows[..|rows| - 1], of, p);
    }
  }
}

/**
 The ports of a traffic stats bucket (addPorts and results in
 stats_single_pass.go): one checked sum per protocol and port, and the twenty
 that rank first.
 */
module StatsPorts {
  import opened PairGroups
  import opened Int64s
  import opened PortsJson
  import PortsAccept

  /** statsPortKey */
  datatype Slot = Slot(proto: int, port: int)

  function SlotOf(e: PortEntry): Slot {
    Slot(e.proto, e.port)
  }

  function BytesAt(sums: map<Slot, int>, s: Slot): int {
    if s in sums then sums[s] else 0
  }

  ghost predicate SumsAreInt64(sums: map<Slot, int>) {
    forall s :: s in sums ==> Int64(sums[s])
  }

  /** What a port column lists (NULL is the empty text); None when the strict parser refuses it. */
  function PortsOf(text: string): Option<seq<PortEntry>> {
    if text == "" || text == "[]" then Some([]) else PortList(text)
  }

  function SlotsOf(list: seq<PortEntry>): set<Slot> {
    set e | e in list :: SlotOf(e)
  }

  /** The bytes a list has for a slot, which it may name more than once. */
  function ListBytes(list: seq<PortEntry>, s: Slot): int {
    if list == [] then 0
    else
      var last := list[|list| - 1];
      ListBytes(list[..|list| - 1], s) + if SlotOf(last) == s then last.bytes else 0
  }

  /** The sums after a list: its slots are there, even with no bytes. */
  function PortTotals(before: map<Slot, int>, list: seq<PortEntry>): map<Slot, int> {
    map s | s in before.Keys + SlotsOf(list) :: BytesAt(before, s) + ListBytes(list, s)
  }

  /** No sum leaves the 64-bit range on the way. */
  ghost predicate PortsFit(before: map<Slot, int>, list: seq<PortEntry>) {
    forall i :: 0 <= i < |list| ==>
      Int64(BytesAt(before, SlotOf(list[i])) + ListBytes(list[..i + 1], SlotOf(list[i])))
  }

  lemma NoPorts(before: map<Slot, int>)
    ensures PortTotals(before, []) == before
  {
    assert PortTotals(before, []).Keys == before.Keys;
  }

  lemma OnePort(before: map<Slot, int>, list: seq<PortEntry>, i: nat)
    requires i < |list|
    ensures var now, s := PortTotals(before, list[..i]), SlotOf(list[i]);
            && BytesAt(now, s) + list[i].bytes == BytesAt(before, s) + ListBytes(list[..i + 1], s)
            && PortTotals(before, list[..i + 1]) == now[s := BytesAt(now, s) + list[i].bytes]
  {
    TotalsSnoc(before, list[..i], list[i]);
    assert list[..i + 1] == list[..i] + [list[i]];
  }

  lemma TotalsSnoc(before: map<Slot, int>, front: seq<PortEntry>, last: PortEntry)
    ensures var now, s := PortTotals(before, front), SlotOf(last);
            && BytesAt(now, s) + last.bytes == BytesAt(before, s) + ListBytes(front + [last], s)
            && PortTotals(before, front + [last]) == now[s := BytesAt(now, s) + last.bytes]
  {
    var s, now, next := SlotOf(last), PortTotals(before, front), PortTotals(before, front + [last]);
    SlotsSnoc(front, last);
    if s !in SlotsOf(front) {
      AbsentSlot(front, s);
    }
    forall t
      ensures ListBytes(front + [last], t) == ListBytes(front, t) + if t == s then last.bytes else 0
    {
      assert (front + [last])[..|front|] == front;
    }
    hide SlotOf, SlotsOf, ListBytes;
    assert next.Keys == now.Keys + {s};
    assert forall t :: t in next && t != s ==> next[t] == now[t];
  }

  lemma SlotsSnoc(front: seq<PortEntry>, last: PortEntry)
    ensures SlotsOf(front + [last]) == SlotsOf(front) + {SlotOf(last)}
  {
    hide SlotOf;
  }

  lemma {:induction false} AbsentSlot(list: seq<PortEntry>, s: Slot)
    requires s !in SlotsOf(list)
    ensures ListBytes(list, s) == 0
  {
    if list != [] {
      var n := |list| - 1;
      assert list[n] in list && forall e :: e in list[..n] ==> e in list;
      AbsentSlot(list[..n], s);
    }
  }

  lemma {:induction false} BytesJoin(a: seq<PortEntry>, b: seq<PortEntry>, s: Slot)
    ensures ListBytes(a + b, s) == ListBytes(a, s) + ListBytes(b, s)
  {
    if b == [] {
      assert a + b == a;
    } else {
      BytesJoin(a, b[..|b| - 1], s);
      assert (a + b)[..|a + b| - 1] == a + b[..|b| - 1];
    }
  }

  /** One list after another is their concatenation. */
  lemma TotalsJoin(before: map<Slot, int>, a: seq<PortEntry>, b: seq<PortEntry>)
    ensures PortTotals(PortTotals(before, a), b) == PortTotals(before, a + b)
  {
    hide SlotOf, ListBytes;
    var l, r := PortTotals(PortTotals(before, a), b), PortTotals(before, a + b);
    assert forall e :: e in a + b <==> e in a || e in b;
    assert SlotsOf(a + b) == SlotsOf(a) + SlotsOf(b);
    assert l.Keys == r.Keys;
    forall s | s in l
      ensures l[s] == r[s]
    {
      BytesJoin(a, b, s);
      if s !in SlotsOf(a) {
        AbsentSlot(a, s);
      }
    }
  }

  lemma ListedBytesFit(text: string)
    requires PortsOf(text).Some?
    ensures forall e :: e in PortsOf(text).value ==> Int64(e.bytes)
  {
    if text != "" && text != "[]" {
      PortsAccept.AcceptsOnlyPrintedPorts(text, PortList(text).value);
    }
  }

  /** addPorts: one row's list on top of a bucket's sums. */
  method AddPorts(before: map<Slot, int>, text: string) returns (sums: map<Slot, int>, ok: bool)
    requires SumsAreInt64(before)
    ensures ok <==> PortsOf(text).Some? && PortsFit(before, PortsOf(text).value)
    ensures ok ==> sums == PortTotals(before, PortsOf(text).value) && SumsAreInt64(sums)
  {
    hide AddInt64, PortList, SlotOf, ListBytes, SlotsOf;
    sums, ok := before, true;
    NoPorts(before);
    if text == "" || text == "[]" {
      return;
    }
    var list, good := ParsePortList(text);
    if !good {
      return before, false;
    }
    ListedBytesFit(text);
    assert list[..0] == [];
    var i := 0;
    while i < |list|
      invariant 0 <= i <= |list| && ok
      invariant sums == PortTotals(before, list[..i]) && SumsAreInt64(sums)
      invariant forall j :: 0 <= j < i ==>
                Int64(BytesAt(before, SlotOf(list[j])) + ListBytes(list[..j + 1], SlotOf(list[j])))
    {
      hide PortTotals;
      OnePort(before, list, i);
      var s := SlotOf(list[i]);
      AddInt64Exact(BytesAt(sums, s), list[i].bytes);
      var sum := AddInt64(BytesAt(sums, s), list[i].bytes);
      if sum.None? {
        return before, false;
      }
      sums := sums[s := sum.value];
      i := i + 1;
    }
    assert list[..i] == list;
  }

  // ---- The ranking.

  /** More bytes first, then the smaller protocol, then the smaller port. */
  predicate Outranks(a: PortEntry, b: PortEntry) {
    || a.bytes > b.bytes
    || (a.bytes == b.bytes && (a.proto < b.proto || (a.proto == b.proto && a.port < b.port)))
  }

  ghost predicate Ranked(list: seq<PortEntry>) {
    forall i, j :: 0 <= i < j < |list| ==> Outranks(list[i], list[j])
  }

  function EntriesIn(list: seq<PortEntry>): set<PortEntry> {
    set e | e in list
  }

  function EntriesOf(sums: map<Slot, int>): set<PortEntry> {
    set s | s in sums :: PortEntry(s.proto, s.port, sums[s])
  }

  function Above(all: set<PortEntry>, e: PortEntry): set<PortEntry> {
    set x | x in all && Outranks(x, e)
  }

  function Place(ranked: seq<PortEntry>, e: PortEntry): seq<PortEntry> {
    if ranked == [] || Outranks(ranked[|ranked| - 1], e) then ranked + [e]
    else Place(ranked[..|ranked| - 1], e) + [ranked[|ranked| - 1]]
  }

  lemma {:induction false} PlaceKeeps(ranked: seq<PortEntry>, e: PortEntry)
    requires Ranked(ranked) && e !in ranked
    ensures Ranked(Place(ranked, e)) && EntriesIn(Place(ranked, e)) == EntriesIn(ranked) + {e}
  {
    if ranked != [] {
      var front, last := ranked[..|ranked| - 1], ranked[|ranked| - 1];
      assert ranked == front + [last];
      if Outranks(last, e) {
        forall x | x in ranked
          ensures Outranks(x, e)
        {
          var i :| 0 <= i < |ranked| && ranked[i] == x;
          assert i < |ranked| - 1 ==> Outranks(ranked[i], last);
        }
        RankedSnoc(ranked, e);
      } else {
        PlaceKeeps(front, e);
        assert last in ranked;
        forall x | x in Place(front, e)
          ensures Outranks(x, last)
        {
          assert x in EntriesIn(Place(front, e));
          if x != e {
            var i :| 0 <= i < |front| && front[i] == x;
            assert Outranks(ranked[i], last);
          }
        }
        RankedSnoc(Place(front, e), last);
      }
    } else {
      RankedSnoc(ranked, e);
    }
  }

  lemma RankedSnoc(front: seq<PortEntry>, last: PortEntry)
    requires Ranked(front) && forall x :: x in front ==> Outranks(x, last)
    ensures Ranked(front + [last]) && EntriesIn(front + [last]) == EntriesIn(front) + {last}
  {
    assert forall i :: 0 <= i < |front| ==> front[i] in front;
  }

  /** In a ranked list as many entries outrank one as stand before it. */
  lemma RankIsIndex(list: seq<PortEntry>, i: nat)
    requires Ranked(list) && i < |list|
    ensures |Above(EntriesIn(list), list[i])| == i
  {
    RankedPrefix(list, i);
    assert Above(EntriesIn(list), list[i]) == EntriesIn(list[..i]) by {
      forall x | x in EntriesIn(list)
        ensures Outranks(x, list[i]) <==> x in list[..i]
      {
        var j :| 0 <= j < |list| && list[j] == x;
        assert forall k :: 0 <= k < i ==> Outranks(list[..i][k], list[i]);
        if j < i {
          assert list[..i][j] == x;
        } else if j > i {
          assert Outranks(list[i], list[j]);
        }
      }
      assert forall x :: x in list[..i] ==> x in list;
    }
  }

  lemma {:induction false} RankedPrefix(list: seq<PortEntry>, n: nat)
    requires Ranked(list) && n <= |list|
    ensures |EntriesIn(list[..n])| == n
  {
    if n > 0 {
      var front, last := list[..n - 1], list[n - 1];
      RankedPrefix(list, n - 1);
      assert list[..n] == front + [last];
      assert EntriesIn(list[..n]) == EntriesIn(front) + {last};
      forall x | x in front
        ensures Outranks(x, last)
      {
        var k :| 0 <= k < n - 1 && front[k] == x;
        assert list[k] == x;
      }
    }
  }

  /** One ranked list for each set of entries. */
  lemma RankedUnique(a: seq<PortEntry>, b: seq<PortEntry>)
    requires Ranked(a) && Ranked(b) && EntriesIn(a) == EntriesIn(b)
    ensures a == b
  {
    assert a[..|a|] == a && b[..|b|] == b;
    RankedPrefix(a, |a|);
    RankedPrefix(b, |b|);
    forall i | 0 <= i < |a|
      ensures a[i] == b[i]
    {
      assert a[i] in EntriesIn(b);
      var j :| 0 <= j < |b| && b[j] == a[i];
      RankIsIndex(a, i);
      RankIsIndex(b, j);
    }
  }

  const TOP: nat := 20

  /** Every sum in rank order. */
  ghost function Ranking(sums: map<Slot, int>): seq<PortEntry> {
    if sums == map[] then []
    else
      var s :| s in sums;
      Place(Ranking(sums - {s}), PortEntry(s.proto, s.port, sums[s]))
  }

  lemma {:induction false} RankingIs(sums: map<Slot, int>)
    ensures Ranked(Ranking(sums)) && EntriesIn(Ranking(sums)) == EntriesOf(sums)
    decreases |sums|
  {
    if sums != map[] {
      var s :| s in sums
        && Ranking(sums) == Place(Ranking(sums - {s}), PortEntry(s.proto, s.port, sums[s]));
      var rest, e := sums - {s}, PortEntry(s.proto, s.port, sums[s]);
      RankingIs(rest);
      hide Outranks, Ranked;
      assert EntriesOf(sums) == EntriesOf(rest) + {e} by {
        assert forall t :: t in sums <==> t == s || t in rest;
      }
      assert e !in Ranking(rest) by {
        assert e !in EntriesOf(rest);
      }
      PlaceKeeps(Ranking(rest), e);
    }
  }

  /** The ports results lists for a bucket. */
  ghost function Top(sums: map<Slot, int>): seq<PortEntry> {
    var all := Ranking(sums);
    if |all| > TOP then all[..TOP] else all
  }

  /**
   They stand in rank order, and a slot is listed with its sum exactly when fewer than
   twenty outrank it.
   */
  lemma TopIsExact(sums: map<Slot, int>)
    ensures Ranked(Top(sums))
    ensures forall e :: e in Top(sums) <==> e in EntriesOf(sums) && |Above(EntriesOf(sums), e)| < TOP
  {
    RankingIs(sums);
    var all := Ranking(sums);
    forall e
      ensures e in Top(sums) <==> e in EntriesOf(sums) && |Above(EntriesOf(sums), e)| < TOP
    {
      hide Ranking, EntriesOf, Above;
      assert forall x :: x in Top(sums) ==> x in all;
      if e in EntriesIn(all) {
        var i :| 0 <= i < |all| && all[i] == e;
        RankIsIndex(all, i);
        if i < TOP {
          assert Top(sums)[i] == e;
        } else {
          assert forall j :: 0 <= j < |Top(sums)| ==> Outranks(Top(sums)[j], e);
        }
      }
    }
  }

  /** A bucket's port sums sorted and cut. */
  method RankPorts(sums: map<Slot, int>) returns (top: seq<PortEntry>)
    ensures top == Top(sums)
  {
    hide Outranks, Ranked, Ranking, Above;
    top := [];
    NothingRanked();
    var left := sums.Keys;
    while left != {}
      invariant left <= sums.Keys && Ranked(top)
      invariant EntriesIn(top) == EntriesOf(map s | s in sums && s !in left :: sums[s])
      decreases left
    {
      assert exists s :: s in left by { SomeSlot(left); }
      var s :| s in left;
      var e := PortEntry(s.proto, s.port, sums[s]);
      assert e !in EntriesIn(top);
      PlaceKeeps(top, e);
      top := Place(top, e);
      left := left - {s};
    }
    assert (map s | s in sums && s !in left :: sums[s]) == sums;
    RankingIs(sums);
    RankedUnique(top, Ranking(sums));
    if |top| > TOP {
      top := top[..TOP];
    }
  }

  lemma NothingRanked()
    ensures Ranked([])
  {
  }

  lemma SomeSlot(slots: set<Slot>)
    ensures slots != {} ==> exists s :: s in slots
  {
    if forall s :: s !in slots {
      assert slots == {};
    }
  }
}

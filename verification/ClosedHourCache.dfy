/**
 The LRU cache of closed hours (closed_hour_cache.go). CacheView is what its
 clients reason with: the epoch, what was touched when, and the entries. The
 class keeps the recency list, the index and the byte budget in step with it.

 The cached value is a type parameter: the cache looks at nothing but its
 size. What a value means, and that it is not stale, is said in StoreWorld,
 where commits and readers interleave over a CacheView.
 */
module ClosedHourCache {
  import opened PairGroups

  datatype HourCacheKey = HourCacheKey(tailnet: string, hour: nat)

  /** Every hour of a tailnet below `below` counts as touched at `epoch`. */
  datatype Floor = Floor(below: int, epoch: nat)

  datatype CacheView<V> = CacheView(
    epoch: nat,
    touched: map<HourCacheKey, nat>,
    floors: map<string, Floor>,
    entries: map<HourCacheKey, V>)

  function TouchedAt(touched: map<HourCacheKey, nat>, floors: map<string, Floor>, key: HourCacheKey): nat {
    var e := if key in touched then touched[key] else 0;
    if key.tailnet in floors && key.hour < floors[key.tailnet].below && floors[key.tailnet].epoch > e
    then floors[key.tailnet].epoch
    else e
  }

  function KeysOf(tailnet: string, hours: set<nat>): set<HourCacheKey> {
    set h | h in hours :: HourCacheKey(tailnet, h)
  }

  function TouchAll(touched: map<HourCacheKey, nat>, keys: set<HourCacheKey>, epoch: nat): map<HourCacheKey, nat> {
    touched + map k | k in keys :: epoch
  }

  function Invalidated<V>(v: CacheView<V>, tailnet: string, hours: set<nat>): CacheView<V> {
    if hours == {} then v
    else
      v.(epoch := v.epoch + 1,
         touched := TouchAll(v.touched, KeysOf(tailnet, hours), v.epoch + 1),
         entries := v.entries - KeysOf(tailnet, hours))
  }

  function FloorAfter(floors: map<string, Floor>, tailnet: string, below: int, epoch: nat): Floor {
    Floor(if tailnet in floors && floors[tailnet].below >= below then floors[tailnet].below
          else if tailnet !in floors && below <= 0 then 0
          else below,
          epoch)
  }

  predicate Below(key: HourCacheKey, tailnet: string, below: int) {
    key.tailnet == tailnet && key.hour < below
  }

  function InvalidatedBelow<V>(v: CacheView<V>, tailnet: string, below: int): CacheView<V> {
    var f := FloorAfter(v.floors, tailnet, below, v.epoch + 1);
    v.(epoch := v.epoch + 1,
       floors := v.floors[tailnet := f],
       entries := map k | k in v.entries && !Below(k, tailnet, f.below) :: v.entries[k],
       touched := map k | k in v.touched && !Below(k, tailnet, f.below) :: v.touched[k])
  }

  // ---- What touched an hour since a reader began.

  /** The calls that drop hours, as their callers made them. */
  datatype Call = DropsHours(tailnet: string, hours: set<nat>) | DropsUnder(tailnet: string, below: int)

  /** The call drops the hour: it names it, or it is under a floor the tailnet was given up to then. */
  ghost predicate DropsAt(calls: seq<Call>, i: nat, key: HourCacheKey)
    requires i < |calls|
  {
    calls[i].tailnet == key.tailnet
    && match calls[i]
       case DropsHours(_, hours) => key.hour in hours
       case DropsUnder(_, _) => Floored(calls, i, key)
  }

  ghost predicate Floored(calls: seq<Call>, i: nat, key: HourCacheKey)
    requires i < |calls|
  {
    exists j :: 0 <= j <= i && calls[j].DropsUnder? && calls[j].tailnet == key.tailnet && key.hour < calls[j].below
  }

  ghost predicate DroppedSince(calls: seq<Call>, start: nat, key: HourCacheKey) {
    exists i :: start <= i < |calls| && DropsAt(calls, i, key)
  }

  /** How many of the calls had something to drop. */
  function EpochOf(calls: seq<Call>): nat {
    if calls == [] then 0
    else
      var last := calls[|calls| - 1];
      EpochOf(calls[..|calls| - 1]) + if last.DropsHours? && last.hours == {} then 0 else 1
  }

  /** The epoch of the last call that dropped an hour. */
  ghost function LastDrop(calls: seq<Call>, key: HourCacheKey): nat {
    if calls == [] then 0
    else if DropsAt(calls, |calls| - 1, key) then EpochOf(calls)
    else LastDrop(calls[..|calls| - 1], key)
  }

  function FloorOf(calls: seq<Call>, tailnet: string): nat {
    if calls == [] then 0
    else
      var before, last := FloorOf(calls[..|calls| - 1], tailnet), calls[|calls| - 1];
      if last.DropsUnder? && last.tailnet == tailnet && last.below > before then last.below else before
  }

  /** The epoch, the touches and the floors tell when each hour was last dropped. */
  ghost predicate Remembers(calls: seq<Call>, epoch: nat, touched: map<HourCacheKey, nat>, floors: map<string, Floor>) {
    && epoch == EpochOf(calls)
    && (forall key :: TouchedAt(touched, floors, key) == LastDrop(calls, key))
    && (forall t :: FloorOf(calls, t) == if t in floors then floors[t].below else 0)
    && (forall t :: t in floors ==> floors[t].epoch <= epoch)
  }

  lemma {:induction false} LastDropBound(calls: seq<Call>, key: HourCacheKey)
    ensures LastDrop(calls, key) <= EpochOf(calls)
  {
    hide DropsAt;
    if calls != [] {
      LastDropBound(calls[..|calls| - 1], key);
    }
  }

  lemma {:induction false} EpochGrows(calls: seq<Call>, s: nat)
    requires s <= |calls|
    ensures EpochOf(calls[..s]) <= EpochOf(calls)
  {
    if s < |calls| {
      EpochGrows(calls[..|calls| - 1], s);
      assert calls[..|calls| - 1][..s] == calls[..s];
    } else {
      assert calls[..s] == calls;
    }
  }

  lemma DropsPrefix(calls: seq<Call>, n: nat, i: nat, key: HourCacheKey)
    requires i < n <= |calls|
    ensures DropsAt(calls[..n], i, key) <==> DropsAt(calls, i, key)
  {
    assert forall j :: 0 <= j <= i ==> calls[..n][j] == calls[j];
  }

  /** An epoch taken before the calls from s on is behind the last drop exactly when one of them dropped the hour. */
  lemma {:induction false} DroppedExactly(calls: seq<Call>, s: nat, key: HourCacheKey)
    requires s <= |calls|
    ensures LastDrop(calls, key) > EpochOf(calls[..s]) <==> DroppedSince(calls, s, key)
  {
    if s == |calls| {
      assert calls[..s] == calls;
      LastDropBound(calls, key);
    } else {
      var n := |calls| - 1;
      DroppedExactly(calls[..n], s, key);
      assert calls[..n][..s] == calls[..s];
      EpochGrows(calls[..n], s);
      forall i | 0 <= i < n
        ensures DropsAt(calls[..n], i, key) <==> DropsAt(calls, i, key)
      {
        DropsPrefix(calls, n, i, key);
      }
      hide Floored;
    }
  }

  lemma {:induction false} FloorIsMax(calls: seq<Call>, key: HourCacheKey)
    ensures key.hour < FloorOf(calls, key.tailnet) <==> calls != [] && Floored(calls, |calls| - 1, key)
  {
    if calls != [] {
      var n := |calls| - 1;
      FloorIsMax(calls[..n], key);
      assert forall j :: 0 <= j < n ==> calls[..n][j] == calls[j];
      if n > 0 && Floored(calls[..n], n - 1, key) {
        var j :| 0 <= j <= n - 1 && calls[..n][j].DropsUnder? && calls[..n][j].tailnet == key.tailnet
          && key.hour < calls[..n][j].below;
        assert calls[j].DropsUnder?;
      }
      if Floored(calls, n, key) {
        var j :| 0 <= j <= n && calls[j].DropsUnder? && calls[j].tailnet == key.tailnet && key.hour < calls[j].below;
        if j < n {
          assert calls[..n][j].DropsUnder?;
        }
      }
    }
  }

  /** What a call does to the epoch an hour was last touched at. */
  lemma TouchedAfter<V>(v: CacheView<V>, tailnet: string, hours: set<nat>, below: int, key: HourCacheKey)
    requires forall t :: t in v.floors ==> 0 <= v.floors[t].below && v.floors[t].epoch <= v.epoch
    ensures var after := Invalidated(v, tailnet, hours);
            TouchedAt(after.touched, after.floors, key)
            == if key.tailnet == tailnet && key.hour in hours then after.epoch else TouchedAt(v.touched, v.floors, key)
    ensures var after := InvalidatedBelow(v, tailnet, below);
            TouchedAt(after.touched, after.floors, key)
            == if key.tailnet == tailnet && key.hour < after.floors[tailnet].below then after.epoch
               else TouchedAt(v.touched, v.floors, key)
  {
    assert key in KeysOf(tailnet, hours) <==> key.tailnet == tailnet && key.hour in hours;
  }

  function AfterCall<V>(v: CacheView<V>, call: Call): CacheView<V> {
    match call
    case DropsHours(tailnet, hours) => Invalidated(v, tailnet, hours)
    case DropsUnder(tailnet, below) => InvalidatedBelow(v, tailnet, below)
  }

  lemma StillRemembers<V>(v: CacheView<V>, calls: seq<Call>, call: Call)
    requires Remembers(calls, v.epoch, v.touched, v.floors)
    ensures var after := AfterCall(v, call); Remembers(calls + [call], after.epoch, after.touched, after.floors)
  {
    hide TouchedAt, LastDrop, AfterCall;
    FloorsStill(v, calls, call);
    forall key
      ensures var after := AfterCall(v, call);
              TouchedAt(after.touched, after.floors, key) == LastDrop(calls + [call], key)
    {
      TouchStill(v, calls, call, key);
    }
  }

  lemma FloorsStill<V>(v: CacheView<V>, calls: seq<Call>, call: Call)
    requires v.epoch == EpochOf(calls)
    requires forall t :: FloorOf(calls, t) == if t in v.floors then v.floors[t].below else 0
    requires forall t :: t in v.floors ==> v.floors[t].epoch <= v.epoch
    ensures var after := AfterCall(v, call);
            && after.epoch == EpochOf(calls + [call])
            && (forall t :: FloorOf(calls + [call], t) == if t in after.floors then after.floors[t].below else 0)
            && (forall t :: t in after.floors ==> after.floors[t].epoch <= after.epoch)
  {
    assert (calls + [call])[..|calls|] == calls;
  }

  lemma TouchStill<V>(v: CacheView<V>, calls: seq<Call>, call: Call, key: HourCacheKey)
    requires Remembers(calls, v.epoch, v.touched, v.floors)
    ensures var after := AfterCall(v, call);
            TouchedAt(after.touched, after.floors, key) == LastDrop(calls + [call], key)
  {
    var now := calls + [call];
    assert now[..|calls|] == calls;
    FloorsStill(v, calls, call);
    FloorIsMax(now, key);
    assert LastDrop(now, key) == if DropsAt(now, |calls|, key) then EpochOf(now) else LastDrop(calls, key);
    assert TouchedAt(v.touched, v.floors, key) == LastDrop(calls, key);
    hide LastDrop, TouchedAt, Floored;
    FloorsArePositive(v, calls);
    match call
    case DropsHours(tailnet, hours) => TouchedAfter(v, tailnet, hours, 0, key);
    case DropsUnder(tailnet, below) => TouchedAfter(v, tailnet, {}, below, key);
  }

  lemma FloorsArePositive<V>(v: CacheView<V>, calls: seq<Call>)
    requires forall t :: FloorOf(calls, t) == if t in v.floors then v.floors[t].below else 0
    ensures forall t :: t in v.floors ==> 0 <= v.floors[t].below
  {
    forall t | t in v.floors
      ensures 0 <= v.floors[t].below
    {
      assert FloorOf(calls, t) == v.floors[t].below;
    }
  }

  lemma NothingRemembered()
    ensures Remembers([], 0, map[], map[])
  {
  }

  datatype Entry<V> = Entry(key: HourCacheKey, size: nat, value: V)

  function SumSizes<V>(lru: seq<Entry<V>>): nat {
    if lru == [] then 0 else lru[0].size + SumSizes(lru[1..])
  }

  /** The list with some keys taken out, the others in order. */
  function Without<V>(lru: seq<Entry<V>>, drop: set<HourCacheKey>): seq<Entry<V>> {
    if lru == [] then []
    else (if lru[0].key in drop then [] else [lru[0]]) + Without(lru[1..], drop)
  }

  ghost predicate Distinct<V>(lru: seq<Entry<V>>) {
    forall i, j :: 0 <= i < j < |lru| ==> lru[i].key != lru[j].key
  }

  lemma {:induction false} WithoutTwice<V>(lru: seq<Entry<V>>, a: set<HourCacheKey>, b: set<HourCacheKey>)
    ensures Without(Without(lru, a), b) == Without(lru, a + b)
  {
    if lru != [] {
      WithoutTwice(lru[1..], a, b);
      if lru[0].key !in a {
        assert Without(lru, a) == [lru[0]] + Without(lru[1..], a);
        assert Without(lru, a)[1..] == Without(lru[1..], a);
      } else {
        assert Without(lru, a) == Without(lru[1..], a);
      }
    }
  }

  lemma {:induction false} WithoutMembers<V(!new)>(lru: seq<Entry<V>>, drop: set<HourCacheKey>)
    ensures forall e :: e in Without(lru, drop) <==> e in lru && e.key !in drop
    ensures Distinct(lru) ==> Distinct(Without(lru, drop))
    ensures |Without(lru, drop)| <= |lru|
  {
    if lru != [] {
      WithoutMembers(lru[1..], drop);
      var rest := Without(lru[1..], drop);
      if Distinct(lru) {
        assert Distinct(lru[1..]);
        forall e | e in rest
          ensures e.key != lru[0].key
        {
          assert e in lru[1..];
          var j :| 0 <= j < |lru[1..]| && lru[1..][j] == e;
          assert lru[j + 1] == e;
        }
      }
    }
  }

  lemma {:induction false} WithoutNothing<V(!new)>(lru: seq<Entry<V>>, drop: set<HourCacheKey>)
    requires forall e :: e in lru ==> e.key !in drop
    ensures Without(lru, drop) == lru
  {
    if lru != [] {
      assert lru[0] in lru;
      forall e | e in lru[1..]
        ensures e.key !in drop
      {
        assert e in lru;
      }
      WithoutNothing(lru[1..], drop);
    }
  }

  lemma {:induction false} WithoutSize<V(!new)>(lru: seq<Entry<V>>, e: Entry<V>)
    requires Distinct(lru) && e in lru
    ensures SumSizes(lru) == SumSizes(Without(lru, {e.key})) + e.size
  {
    if lru[0] == e {
      forall x | x in lru[1..]
        ensures x.key != e.key
      {
        var j :| 0 <= j < |lru[1..]| && lru[1..][j] == x;
        assert lru[j + 1] == x;
      }
      WithoutNothing(lru[1..], {e.key});
      assert Without(lru, {e.key}) == lru[1..];
    } else {
      assert Distinct(lru[1..]);
      var j :| 0 <= j < |lru| && lru[j] == e;
      assert lru[1..][j - 1] == e;
      WithoutSize(lru[1..], e);
      assert lru[0].key != e.key;
      assert Without(lru, {e.key}) == [lru[0]] + Without(lru[1..], {e.key});
    }
  }

  lemma {:induction false} SumSizesSnoc<V>(lru: seq<Entry<V>>, e: Entry<V>)
    ensures SumSizes(lru + [e]) == SumSizes(lru) + e.size
  {
    if lru == [] {
      assert lru + [e] == [e];
    } else {
      SumSizesSnoc(lru[1..], e);
      assert (lru + [e])[1..] == lru[1..] + [e];
    }
  }

  /** What is left after evicting from the back: the longest front part that fits the budget. */
  ghost predicate EvictedTo<V>(full: seq<Entry<V>>, budget: nat, kept: seq<Entry<V>>) {
    kept <= full
    && SumSizes(kept) <= budget
    && (kept == full || SumSizes(full[..|kept| + 1]) > budget)
  }

  /** Some entries may be gone; none has changed. */
  ghost predicate DropsFrom<V(!new)>(after: map<HourCacheKey, V>, before: map<HourCacheKey, V>) {
    forall k :: k in after ==> k in before && after[k] == before[k]
  }

  /**
   What put may do to the view: nothing, or, when the hour was not touched
   after readEpoch, the entry goes in and others may be evicted.
   */
  ghost predicate PutInto<V(!new)>(v: CacheView<V>, key: HourCacheKey, value: V, readEpoch: nat, v': CacheView<V>) {
    v' == v
    || (TouchedAt(v.touched, v.floors, key) <= readEpoch
        && v' == v.(entries := v'.entries)
        && DropsFrom(v'.entries, v.entries[key := value]))
  }

  /** The recency list, the index and the byte count describe the same entries. */
  ghost predicate Indexed<V(!new)>(lru: seq<Entry<V>>, entries: map<HourCacheKey, Entry<V>>, used: int) {
    && Distinct(lru)
    && (forall e :: e in lru <==> e.key in entries && entries[e.key] == e)
    && (forall k :: k in entries ==> entries[k].key == k)
    && used == SumSizes(lru)
  }

  function Values<V>(entries: map<HourCacheKey, Entry<V>>): map<HourCacheKey, V> {
    map k | k in entries :: entries[k].value
  }

  lemma IndexedKeys<V(!new)>(lru: seq<Entry<V>>, entries: map<HourCacheKey, Entry<V>>, used: int)
    requires Indexed(lru, entries, used)
    ensures forall k :: k in entries ==> entries[k].key == k && entries[k] in lru
    ensures forall e :: e in lru ==> e.key in entries
  {
  }

  lemma IndexedAfterRemove<V(!new)>(lru: seq<Entry<V>>, entries: map<HourCacheKey, Entry<V>>, used: int, e: Entry<V>)
    requires Indexed(lru, entries, used) && e in lru
    ensures Indexed(Without(lru, {e.key}), entries - {e.key}, used - e.size)
  {
    WithoutMembers(lru, {e.key});
    WithoutSize(lru, e);
  }

  lemma IndexedAfterPush<V(!new)>(lru: seq<Entry<V>>, entries: map<HourCacheKey, Entry<V>>, used: int, e: Entry<V>)
    requires Indexed(lru, entries, used) && e.key !in entries
    ensures Indexed([e] + lru, entries[e.key := e], used + e.size)
  {
    var full := [e] + lru;
    assert full[1..] == lru;
    forall i, j | 0 <= i < j < |full|
      ensures full[i].key != full[j].key
    {
      assert full[j] in lru;
    }
    var next := entries[e.key := e];
    forall x
      ensures x in full <==> x.key in next && next[x.key] == x
    {
      assert x in full <==> x == e || x in lru;
    }
  }

  lemma MovedToFront<V(!new)>(lru: seq<Entry<V>>, entries: map<HourCacheKey, Entry<V>>, used: int, key: HourCacheKey)
    requires Indexed(lru, entries, used) && key in entries
    ensures Indexed([entries[key]] + Without(lru, {key}), entries, used)
  {
    hide *;
    IndexedKeys(lru, entries, used);
    var e := entries[key];
    IndexedAfterRemove(lru, entries, used, e);
    IndexedAfterPush(Without(lru, {key}), entries - {key}, used - e.size, e);
    assert (entries - {key})[key := e] == entries;
  }

  lemma SizesAre<V(!new)>(lru: seq<Entry<V>>, entries: map<HourCacheKey, Entry<V>>, used: int)
    requires Indexed(lru, entries, used)
    ensures used == SumSizes(lru) && Distinct(lru)
  {
  }

  /** The eviction loop's list: a front part, and all of it or too big with one more. */
  ghost predicate EvictedSoFar<V>(full: seq<Entry<V>>, budget: nat, lru: seq<Entry<V>>) {
    lru <= full && |lru| >= 1 && (lru == full || SumSizes(full[..|lru| + 1]) > budget)
  }

  lemma EvictNothing<V(!new)>(full: seq<Entry<V>>, budget: nat, values: map<HourCacheKey, V>)
    requires |full| >= 1
    ensures EvictedSoFar(full, budget, full) && DropsFrom(values, values)
  {
  }

  /** Taking the back out while the list is over the budget. */
  lemma EvictOne<V(!new)>(full: seq<Entry<V>>, lru: seq<Entry<V>>, entry: Entry<V>, budget: nat)
    requires |full| >= 1 && full[0] == entry && entry.size <= budget
    requires EvictedSoFar(full, budget, lru) && Distinct(lru) && SumSizes(lru) > budget
    ensures |lru| > 1 && lru[|lru| - 1] in lru
    ensures Without(lru, {lru[|lru| - 1].key}) == lru[..|lru| - 1]
    ensures EvictedSoFar(full, budget, lru[..|lru| - 1])
  {
    OnlyEntryFits(full, lru, entry, budget);
    BackRemoved(lru, lru[|lru| - 1]);
    var next := lru[..|lru| - 1];
    assert full[..|next| + 1] == lru;
  }

  lemma StillDrops<V(!new)>(entries: map<HourCacheKey, Entry<V>>, key: HourCacheKey, values: map<HourCacheKey, V>)
    requires DropsFrom(Values(entries), values)
    ensures DropsFrom(Values(entries - {key}), values)
  {
  }

  lemma EvictEnds<V(!new)>(full: seq<Entry<V>>, budget: nat, lru: seq<Entry<V>>, entry: Entry<V>)
    requires |full| >= 1 && full[0] == entry && EvictedSoFar(full, budget, lru) && SumSizes(lru) <= budget
    ensures EvictedTo(full, budget, lru) && lru != [] && lru[0] == entry
  {
    assert lru[0] == entry;
  }

  lemma AbsentIsWithout<V(!new)>(lru: seq<Entry<V>>, entries: map<HourCacheKey, Entry<V>>, used: int, key: HourCacheKey)
    requires Indexed(lru, entries, used) && key !in entries
    ensures Without(lru, {key}) == lru && entries - {key} == entries
  {
    WithoutNothing(lru, {key});
  }

  lemma ValuesWithout<V>(entries: map<HourCacheKey, Entry<V>>, keys: set<HourCacheKey>)
    ensures Values(entries - keys) == Values(entries) - keys
  {
  }

  lemma ValuesAbove<V>(entries: map<HourCacheKey, Entry<V>>, tailnet: string, below: int)
    ensures var doomed := set k | k in entries && Below(k, tailnet, below);
            Values(entries - doomed) == map k | k in Values(entries) && !Below(k, tailnet, below) :: Values(entries)[k]
  {
    hide Below;
  }

  lemma DropNothing<V(!new)>(tailnet: string, hours: set<nat>, lru: seq<Entry<V>>, touched: map<HourCacheKey, nat>,
                      epoch: nat)
    ensures KeysOf(tailnet, hours - hours) == {}
    ensures Without(lru, {}) == lru
    ensures TouchAll(touched, {}, epoch) == touched
  {
    WithoutNothing(lru, {});
  }

  lemma TouchOne(touched: map<HourCacheKey, nat>, done: set<HourCacheKey>, key: HourCacheKey, epoch: nat)
    ensures TouchAll(touched, done + {key}, epoch) == TouchAll(touched, done, epoch)[key := epoch]
  {
  }

  lemma ValuesAfterPut<V>(entries: map<HourCacheKey, Entry<V>>, e: Entry<V>)
    ensures Values((entries - {e.key})[e.key := e]) == Values(entries)[e.key := e.value]
  {
  }

  lemma KeysGrow(tailnet: string, hours: set<nat>, left: set<nat>, hour: nat)
    requires hour in left && left <= hours
    ensures KeysOf(tailnet, hours - (left - {hour})) == KeysOf(tailnet, hours - left) + {HourCacheKey(tailnet, hour)}
  {
  }

  class Cache<V(!new)> {
    const budget: nat
    var used: nat
    var lru: seq<Entry<V>>
    var entries: map<HourCacheKey, Entry<V>>
    var epoch: nat
    var touched: map<HourCacheKey, nat>
    var floors: map<string, Floor>
    var hits: nat
    var misses: nat
    ghost var calls: seq<Call>

    ghost predicate Valid()
      reads this
    {
      Indexed(lru, entries, used) && used <= budget && Remembers(calls, epoch, touched, floors)
    }

    ghost function View(): CacheView<V>
      reads this
    {
      CacheView(epoch, touched, floors, Values(entries))
    }

    constructor (budget: nat)
      ensures Valid() && this.budget == budget
      ensures View() == CacheView(0, map[], map[], map[]) && calls == []
    {
      NothingRemembered();
      this.budget, calls := budget, [];
      used, lru, entries := 0, [], map[];
      epoch, touched, floors := 0, map[], map[];
      hits, misses := 0, 0;
    }

    /** The epoch a reader passes to Put; it is taken before the read. */
    method Start() returns (e: nat)
      requires Valid()
      ensures e == View().epoch == EpochOf(calls)
    {
      e := epoch;
    }

    /** A hit moves the entry to the front and changes nothing a reader can see. */
    method Get(key: HourCacheKey) returns (found: Option<V>)
      requires Valid()
      modifies this`lru, this`hits, this`misses
      ensures Valid()
      ensures found == if key in View().entries then Some(View().entries[key]) else None
      ensures key in entries ==>
              lru == [entries[key]] + Without(old(lru), {key}) && hits == old(hits) + 1 && misses == old(misses)
      ensures key !in entries ==> lru == old(lru) && hits == old(hits) && misses == old(misses) + 1
    {
      hide Indexed, Without, SumSizes, Remembers;
      if key !in entries {
        misses := misses + 1;
        return None;
      }
      hits := hits + 1;
      var e := entries[key];
      MovedToFront(lru, entries, used, key);
      lru := [e] + Without(lru, {key});
      return Some(e.value);
    }

    /** removeLocked for an entry of the list. */
    method Remove(e: Entry<V>)
      requires Indexed(lru, entries, used) && e in lru
      modifies this`lru, this`entries, this`used
      ensures Indexed(lru, entries, used)
      ensures lru == Without(old(lru), {e.key})
      ensures entries == old(entries) - {e.key}
      ensures used == old(used) - e.size
    {
      WithoutSize(lru, e);
      IndexedAfterRemove(lru, entries, used, e);
      hide Indexed;
      lru := Without(lru, {e.key});
      entries := entries - {e.key};
      used := used - e.size;
    }

    method RemoveKey(key: HourCacheKey)
      requires Indexed(lru, entries, used)
      modifies this`lru, this`entries, this`used
      ensures Indexed(lru, entries, used)
      ensures lru == Without(old(lru), {key})
      ensures entries == old(entries) - {key}
      ensures used <= old(used)
    {
      if key in entries {
        IndexedKeys(lru, entries, used);
        Remove(entries[key]);
      } else {
        AbsentIsWithout(lru, entries, used, key);
      }
    }

    /**
     Stores an hour unless it is over the budget on its own or was touched
     after the reader took its epoch: exactly unless a call since its Start
     dropped it. The back of the list is evicted, and the loop never finds the
     list empty.
     */
    method Put(entry: Entry<V>, readEpoch: nat)
      requires Valid()
      modifies this`lru, this`entries, this`used
      ensures Valid()
      ensures entry.size > budget || TouchedAt(touched, floors, entry.key) > readEpoch ==>
              lru == old(lru) && entries == old(entries)
      ensures entry.size <= budget && TouchedAt(touched, floors, entry.key) <= readEpoch ==>
                EvictedTo([entry] + Without(old(lru), {entry.key}), budget, lru) && entry in lru
      ensures PutInto(old(View()), entry.key, entry.value, readEpoch, View())
      ensures forall s: nat :: s <= |calls| && readEpoch == EpochOf(calls[..s]) ==>
                if entry.size > budget || DroppedSince(calls, s, entry.key)
                then lru == old(lru) && entries == old(entries)
                else lru != [] && lru[0] == entry
    {
      forall s: nat | s <= |calls| && readEpoch == EpochOf(calls[..s])
        ensures TouchedAt(touched, floors, entry.key) > readEpoch <==> DroppedSince(calls, s, entry.key)
      {
        DroppedExactly(calls, s, entry.key);
      }
      if entry.size > budget || TouchedAt(touched, floors, entry.key) > readEpoch {
        return;
      }
      hide Indexed, TouchedAt, Without, SumSizes, EvictedTo, DropsFrom, Remembers, DroppedSince;
      ValuesAfterPut(entries, entry);
      RemoveKey(entry.key);
      IndexedAfterPush(lru, entries, used, entry);
      lru := [entry] + lru;
      entries := entries[entry.key := entry];
      used := used + entry.size;
      EvictBack(entry);
    }

    /** The eviction loop of put. */
    method EvictBack(entry: Entry<V>)
      requires Indexed(lru, entries, used) && |lru| >= 1 && lru[0] == entry && entry.size <= budget
      modifies this`lru, this`entries, this`used
      ensures Indexed(lru, entries, used) && used <= budget
      ensures EvictedTo(old(lru), budget, lru) && lru != [] && lru[0] == entry
      ensures DropsFrom(Values(entries), Values(old(entries)))
    {
      hide *;
      ghost var full := lru;
      EvictNothing(full, budget, Values(entries));
      while used > budget
        invariant Indexed(lru, entries, used)
        invariant EvictedSoFar(full, budget, lru)
        invariant DropsFrom(Values(entries), Values(old(entries)))
        decreases |lru|
      {
        ghost var was, before := lru, entries;
        SizesAre(lru, entries, used);
        EvictOne(full, lru, entry, budget);
        var last := lru[|lru| - 1];
        Remove(last);
        StillDrops(before, last.key, Values(old(entries)));
      }
      SizesAre(lru, entries, used);
      EvictEnds(full, budget, lru, entry);
    }

    /** Drops the given hours. It runs after the commit that changed them has landed. */
    method Invalidate(tailnet: string, hours: set<nat>)
      requires Valid()
      modifies this`lru, this`entries, this`used, this`epoch, this`touched, this`calls
      ensures Valid() && calls == old(calls) + [DropsHours(tailnet, hours)]
      ensures View() == Invalidated(old(View()), tailnet, hours)
      ensures lru == Without(old(lru), KeysOf(tailnet, hours))
    {
      hide Remembers;
      StillRemembers(View(), calls, DropsHours(tailnet, hours));
      calls := calls + [DropsHours(tailnet, hours)];
      if hours == {} {
        WithoutNothing(lru, KeysOf(tailnet, hours));
        return;
      }
      epoch := epoch + 1;
      DropHours(tailnet, hours);
      ValuesWithout(old(entries), KeysOf(tailnet, hours));
    }

    /** The loop of invalidate. */
    method DropHours(tailnet: string, hours: set<nat>)
      requires Indexed(lru, entries, used) && used <= budget
      modifies this`lru, this`entries, this`used, this`touched
      ensures Indexed(lru, entries, used) && used <= budget
      ensures lru == Without(old(lru), KeysOf(tailnet, hours))
      ensures entries == old(entries) - KeysOf(tailnet, hours)
      ensures touched == TouchAll(old(touched), KeysOf(tailnet, hours), epoch)
    {
      hide *;
      var left := hours;
      ghost var done: set<HourCacheKey> := {};
      DropNothing(tailnet, hours, lru, touched, epoch);
      while left != {}
        invariant left <= hours && Indexed(lru, entries, used) && used <= budget
        invariant done == KeysOf(tailnet, hours - left)
        invariant lru == Without(old(lru), done)
        invariant entries == old(entries) - done
        invariant touched == TouchAll(old(touched), done, epoch)
        decreases left
      {
        var hour :| hour in left;
        var key := HourCacheKey(tailnet, hour);
        KeysGrow(tailnet, hours, left, hour);
        WithoutTwice(old(lru), done, {key});
        TouchOne(old(touched), done, key, epoch);
        touched := touched[key := epoch];
        RemoveKey(key);
        left := left - {hour};
        done := done + {key};
      }
      assert hours - left == hours;
    }

    /** Drops every hour of a tailnet that starts before below, and remembers the floor. */
    method InvalidateBelow(tailnet: string, below: int)
      requires Valid()
      modifies this`lru, this`entries, this`used, this`epoch, this`touched, this`floors, this`calls
      ensures Valid() && calls == old(calls) + [DropsUnder(tailnet, below)]
      ensures View() == InvalidatedBelow(old(View()), tailnet, below)
      ensures lru == Without(old(lru), set k | k in old(entries) && Below(k, tailnet, floors[tailnet].below))
    {
      hide Indexed, Without, FloorAfter, Below, Remembers, Values, TouchedAt;
      StillRemembers(View(), calls, DropsUnder(tailnet, below));
      ghost var before := View();
      epoch := epoch + 1;
      var f := FloorAfter(floors, tailnet, below, epoch);
      floors := floors[tailnet := f];
      var doomed := set k | k in entries && Below(k, tailnet, f.below);
      DropKeys(doomed);
      touched := map k | k in touched && !Below(k, tailnet, f.below) :: touched[k];
      calls := calls + [DropsUnder(tailnet, below)];
      ValuesAbove(old(entries), tailnet, f.below);
    }

    /** The loop of invalidateBelow over the entries. */
    method DropKeys(doomed: set<HourCacheKey>)
      requires Indexed(lru, entries, used) && used <= budget
      modifies this`lru, this`entries, this`used
      ensures Indexed(lru, entries, used) && used <= budget
      ensures lru == Without(old(lru), doomed) && entries == old(entries) - doomed
    {
      hide *;
      var left := doomed;
      assert doomed - left == {};
      assert Without(lru, {}) == lru by { WithoutNothing(lru, {}); }
      while left != {}
        invariant left <= doomed && Indexed(lru, entries, used) && used <= budget
        invariant lru == Without(old(lru), doomed - left) && entries == old(entries) - (doomed - left)
        decreases left
      {
        var key :| key in left;
        WithoutTwice(old(lru), doomed - left, {key});
        assert doomed - (left - {key}) == doomed - left + {key};
        RemoveKey(key);
        left := left - {key};
      }
      assert doomed - left == doomed;
    }
  }

  /** A list over the budget holds more than the entry at its front, which fits alone. */
  lemma OnlyEntryFits<V>(full: seq<Entry<V>>, lru: seq<Entry<V>>, entry: Entry<V>, budget: nat)
    requires |lru| >= 1 && lru <= full && full[0] == entry && entry.size <= budget && SumSizes(lru) > budget
    ensures |lru| > 1
  {
    assert SumSizes(lru) == lru[0].size + SumSizes(lru[1..]);
  }

  /** Taking the last entry out leaves the front. */
  lemma BackRemoved<V(!new)>(lru: seq<Entry<V>>, last: Entry<V>)
    requires |lru| >= 1 && Distinct(lru) && last == lru[|lru| - 1]
    ensures Without(lru, {last.key}) == lru[..|lru| - 1]
    ensures last in lru
  {
    hide Without;
    var front := lru[..|lru| - 1];
    forall e | e in front
      ensures e.key != last.key
    {
      var i :| 0 <= i < |front| && front[i] == e;
      assert lru[i] == e;
    }
    WithoutNothing(front, {last.key});
    WithoutConcat(front, [last], {last.key});
    assert front + [last] == lru;
    OnlyOneGone(last);
  }

  lemma OnlyOneGone<V>(e: Entry<V>)
    ensures Without([e], {e.key}) == []
  {
  }

  lemma WithoutFirst<V>(lru: seq<Entry<V>>, drop: set<HourCacheKey>)
    requires lru != []
    ensures Without(lru, drop) == (if lru[0].key in drop then [] else [lru[0]]) + Without(lru[1..], drop)
  {
  }

  lemma {:induction false} WithoutConcat<V>(a: seq<Entry<V>>, b: seq<Entry<V>>, drop: set<HourCacheKey>)
    ensures Without(a + b, drop) == Without(a, drop) + Without(b, drop)
  {
    if a == [] {
      assert a + b == b;
    } else {
      WithoutConcat(a[1..], b, drop);
      assert (a + b)[1..] == a[1..] + b && (a + b)[0] == a[0];
      WithoutFirst(a, drop);
      WithoutFirst(a + b, drop);
      hide Without;
    }
  }
}

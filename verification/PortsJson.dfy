/**
 The port lists of the derived stats (parsePortList in
 stats_single_pass_json.go), the printer formatPortsLimit, and the protocol
 lists of parseIntArray.
 */
module PortsJson {
  import opened PairGroups
  import opened SumSets
  import opened JsonInt
  import opened StatsJson

  datatype PortEntry = PortEntry(proto: int, port: int, bytes: int)

  datatype Field = PortField | ProtoField | BytesField

  const PORT_KEY: string := "\"port\":"
  const PROTO_KEY: string := "\"proto\":"
  const BYTES_KEY: string := "\"bytes\":"

  function FieldAt(b: string, i: nat): (f: Option<Read<Field>>)
    ensures f.Some? ==> i < f.value.next <= |b|
  {
    if At(b, i, PORT_KEY) then Some(Read(PortField, i + 7))
    else if At(b, i, PROTO_KEY) then Some(Read(ProtoField, i + 8))
    else if At(b, i, BYTES_KEY) then Some(Read(BytesField, i + 8))
    else None
  }

  /** The rest of one object, given the fields seen so far. */
  function ObjectAt(b: string, i: nat, vals: map<Field, int>): (o: Option<Read<PortEntry>>)
    requires i <= |b|
    ensures o.Some? ==> i < o.value.next <= |b|
    decreases |b| - i
  {
    var f := FieldAt(b, i);
    if f.None? || f.value.item in vals then None
    else
      var n := NumberAt(b, f.value.next);
      if n.None? then None
      else
        var now := vals[f.value.item := n.value.value];
        var j := n.value.next;
        if j >= |b| then None
        else if b[j] == '}' then
          if PortField in now && ProtoField in now && BytesField in now
          then Some(Read(PortEntry(now[ProtoField], now[PortField], now[BytesField]), j + 1))
          else None
        else if b[j] != ',' then None
        else ObjectAt(b, j + 1, now)
  }

  function ObjectsAt(b: string, i: nat): Option<seq<PortEntry>>
    requires i <= |b|
    decreases |b| - i
  {
    if i >= |b| || b[i] != '{' then None
    else
      var o := ObjectAt(b, i + 1, map[]);
      if o.None? || o.value.next >= |b| then None
      else
        var j := o.value.next;
        if b[j] == ']' then if j == |b| - 1 then Some([o.value.item]) else None
        else if b[j] != ',' then None
        else
          var rest := ObjectsAt(b, j + 1);
          if rest.None? then None else Some([o.value.item] + rest.value)
  }

  function PortList(b: string): Option<seq<PortEntry>> {
    if |b| < 2 || b[0] != '[' || b[|b| - 1] != ']' then None
    else if b[1] == ']' then Some([])
    else ObjectsAt(b, 1)
  }

  method ParsePortList(b: string) returns (entries: seq<PortEntry>, ok: bool)
    ensures ok <==> PortList(b).Some?
    ensures ok ==> entries == PortList(b).value
  {
    hide ObjectAt, ObjectsAt, Appended;
    entries, ok := [], false;
    if |b| < 2 || b[0] != '[' || b[|b| - 1] != ']' {
      return;
    }
    var i := 1;
    if b[i] == ']' {
      ok := true;
      return;
    }
    NothingInFront(ObjectsAt(b, i));
    while true
      invariant 1 <= i <= |b|
      invariant PortList(b) == Appended(entries, ObjectsAt(b, i))
      decreases |b| - i
    {
      hide PortList;
      ObjectsStep(b, i, entries);
      if i >= |b| || b[i] != '{' {
        return;
      }
      var entry, next, good := ParseObject(b, i + 1);
      if !good {
        return;
      }
      i := next;
      entries := entries + [entry];
      if i >= |b| {
        return;
      }
      if b[i] == ']' {
        ok := i == |b| - 1;
        return;
      }
      if b[i] != ',' {
        return;
      }
      i := i + 1;
    }
  }

  lemma NothingInFront(rest: Option<seq<PortEntry>>)
    ensures Appended([], rest) == rest
  {
    if rest.Some? {
      assert [] + rest.value == rest.value;
    }
  }

  lemma ObjectsStep(b: string, i: nat, front: seq<PortEntry>)
    requires i <= |b|
    ensures var all := Appended(front, ObjectsAt(b, i));
            if i >= |b|
                || b[i] != '{' || ObjectAt(b, i + 1, map[]).None? || ObjectAt(b, i + 1, map[]).value.next >= |b|
                then all == None
            else
              var o := ObjectAt(b, i + 1, map[]);
              var j, next := o.value.next, front + [o.value.item];
              if b[j] == ']' then all == if j == |b| - 1 then Some(next) else None
              else if b[j] == ',' then all == Appended(next, ObjectsAt(b, j + 1))
              else all == None
  {
    hide ObjectAt;
    if i < |b| && b[i] == '{' {
      var o := ObjectAt(b, i + 1, map[]);
      if o.Some? && o.value.next < |b| && b[o.value.next] == ',' {
        var rest := ObjectsAt(b, o.value.next + 1);
        if rest.Some? {
          assert front + ([o.value.item] + rest.value) == front + [o.value.item] + rest.value;
        }
      }
    }
  }

  /** The inner loop: one object, each of its three keys once, in any order. */
  method ParseObject(b: string, at: nat) returns (entry: PortEntry, next: nat, ok: bool)
    requires at <= |b|
    ensures ok <==> ObjectAt(b, at, map[]).Some?
    ensures ok ==> ObjectAt(b, at, map[]) == Some(Read(entry, next))
  {
    hide NumberAt, FieldAt, ObjectAt;
    entry, next, ok := PortEntry(0, 0, 0), at, false;
    var i := at;
    var vals: map<Field, int> := map[];
    while true
      invariant i <= |b|
      invariant ObjectAt(b, at, map[]) == ObjectAt(b, i, vals)
      decreases |b| - i
    {
      ObjectStep(b, i, vals);
      var f := FieldAt(b, i);
      if f.None? || f.value.item in vals {
        return;
      }
      var v, after, good := ParseJSONInt(b, f.value.next);
      if !good {
        return;
      }
      vals := vals[f.value.item := v];
      i := after;
      if i >= |b| {
        return;
      }
      if b[i] == '}' {
        if PortField in vals && ProtoField in vals && BytesField in vals {
          entry, next, ok := PortEntry(vals[ProtoField], vals[PortField], vals[BytesField]), i + 1, true;
        }
        return;
      }
      if b[i] != ',' {
        return;
      }
      i := i + 1;
    }
  }

  lemma ObjectStep(b: string, i: nat, vals: map<Field, int>)
    requires i <= |b|
    ensures var o, f := ObjectAt(b, i, vals), FieldAt(b, i);
            if f.None? || f.value.item in vals || NumberAt(b, f.value.next).None?
                || NumberAt(b, f.value.next).value.next >= |b| then o == None
            else
              var n := NumberAt(b, f.value.next).value;
              var now, j := vals[f.value.item := n.value], n.next;
              if b[j] == '}' then
                o == if PortField in now && ProtoField in now && BytesField in now
                     then Some(Read(PortEntry(now[ProtoField], now[PortField], now[BytesField]), j + 1))
                     else None
              else o == if b[j] == ',' then ObjectAt(b, j + 1, now) else None
  {
    hide NumberAt, FieldAt;
  }

  // ---- The printer.

  /** writeMaybeInt */
  function PrintMaybe(n: int, isNull: bool): string {
    if isNull then "null" else FormatInt(n)
  }

  function PrintPort(item: Item<PortKey>): string {
    "{" + (PORT_KEY + (PrintMaybe(item.key.port, item.key.portNull)
    + ("," + (PROTO_KEY + (PrintMaybe(item.key.proto, item.key.protoNull)
    + ("," + (BYTES_KEY + (PrintSum(item.sum) + "}"))))))))
  }

  function PrintPorts(list: seq<Item<PortKey>>): string
    requires list != []
  {
    PrintPort(list[0]) + if |list| == 1 then "]" else "," + PrintPorts(list[1..])
  }

  function PrintPortList(list: seq<Item<PortKey>>): string {
    if list == [] then "[]" else "[" + PrintPorts(list)
  }

  predicate PortReadable(item: Item<PortKey>) {
    item.sum.Num? && InRange(item.sum.n)
    && !item.key.portNull && InRange(item.key.port) && !item.key.protoNull && InRange(item.key.proto)
  }

  function PortEntryOf(item: Item<PortKey>): PortEntry {
    PortEntry(item.key.proto, item.key.port, if item.sum.Num? then item.sum.n else 0)
  }

  function PortEntriesOf(list: seq<Item<PortKey>>): (entries: seq<PortEntry>)
    ensures |entries| == |list|
  {
    seq(|list|, i requires 0 <= i < |list| => PortEntryOf(list[i]))
  }

  predicate AllPortsReadable(list: seq<Item<PortKey>>) {
    forall i :: 0 <= i < |list| ==> PortReadable(list[i])
  }

  lemma MaybeReads(b: string, i: nat, n: int, isNull: bool)
    requires At(b, i, PrintMaybe(n, isNull)) && Ends(b, i + |PrintMaybe(n, isNull)|)
    ensures NumberAt(b, i) == if !isNull && InRange(n) then Some(Number(n, i + |PrintMaybe(n, isNull)|)) else None
  {
    if isNull {
      assert b[i] == "null"[0];
    } else {
      PrintedNumber(b, i, n);
    }
  }

  lemma FieldReads(b: string, i: nat)
    ensures At(b, i, PORT_KEY) ==> FieldAt(b, i) == Some(Read(PortField, i + 7))
    ensures At(b, i, PROTO_KEY) ==> FieldAt(b, i) == Some(Read(ProtoField, i + 8))
    ensures At(b, i, BYTES_KEY) ==> FieldAt(b, i) == Some(Read(BytesField, i + 8))
  {
    assert |PORT_KEY| == 7 && |PROTO_KEY| == 8 && |BYTES_KEY| == 8;
    if At(b, i, PROTO_KEY) {
      assert b[i + 2] == PROTO_KEY[2] == 'r';
      assert PORT_KEY[2] == 'o';
      assert !At(b, i, PORT_KEY) by { DifferentAt(b, i, PORT_KEY, 2); }
    }
    if At(b, i, BYTES_KEY) {
      assert b[i + 1] == BYTES_KEY[1] == 'b';
      assert PORT_KEY[1] == 'p' && PROTO_KEY[1] == 'p';
      DifferentAt(b, i, PORT_KEY, 1);
      DifferentAt(b, i, PROTO_KEY, 1);
    }
  }

  lemma DifferentAt(b: string, i: nat, s: string, k: nat)
    requires k < |s| && i + k < |b| && b[i + k] != s[k]
    ensures !At(b, i, s)
  {
    if i + |s| <= |b| {
      assert b[i..i + |s|][k] == b[i + k];
    }
  }

  /** One field: its key, its number, and one more character. */
  lemma OneField(b: string, i: nat, vals: map<Field, int>, f: Field, key: string, n: int, isNull: bool, c: string,
                 rest: string)
    requires key == (match f case PortField => PORT_KEY case ProtoField => PROTO_KEY case BytesField => BYTES_KEY)
    requires (c == "," || c == "}") && f !in vals && i <= |b|
    requires At(b, i, key + (PrintMaybe(n, isNull) + (c + rest)))
    ensures var j := i + |key| + |PrintMaybe(n, isNull)|;
            At(b, j, c) && At(b, j + 1, rest)
            && (isNull || !InRange(n) ==> ObjectAt(b, i, vals) == None)
            && (!isNull && InRange(n) && c == "," ==> ObjectAt(b, i, vals) == ObjectAt(b, j + 1, vals[f := n]))
            && (!isNull && InRange(n) && c == "}" && PortField in vals[f := n] && ProtoField in vals[f := n]
                && BytesField in vals[f := n] ==>
                  var now := vals[f := n];
                  ObjectAt(b, i, vals)
                      == Some(Read(PortEntry(now[ProtoField], now[PortField], now[BytesField]), j + 1)))
  {
    hide NumberAt, FormatInt, FieldAt, At, InRange, PrintMaybe, Ends, ObjectAt;
    var num := PrintMaybe(n, isNull);
    FieldParts(b, i, key, num, c, rest);
    FieldReads(b, i);
    KeyLengths();
    MaybeReads(b, i + |key|, n, isNull);
    ObjectStep(b, i, vals);
  }

  lemma KeyLengths()
    ensures |PORT_KEY| == 7 && |PROTO_KEY| == 8 && |BYTES_KEY| == 8
  {
  }

  lemma FieldParts(b: string, i: nat, key: string, num: string, c: string, rest: string)
    requires At(b, i, key + (num + (c + rest))) && (c == "," || c == "}")
    ensures var j := i + |key| + |num|;
            At(b, i, key) && At(b, i + |key|, num) && At(b, j, c) && At(b, j + 1, rest) && j < |b| && b[j] == c[0]
                && Ends(b, j)
  {
    AtConcat(b, i, key, num + (c + rest));
    AtConcat(b, i + |key|, num, c + rest);
    AtConcat(b, i + |key| + |num|, c, rest);
    assert b[i + |key| + |num|] == c[0];
  }

  lemma PortReads(b: string, i: nat, item: Item<PortKey>)
    requires At(b, i, PrintPort(item))
    ensures b[i] == '{'
    ensures ObjectAt(b, i + 1, map[]) == if PortReadable(item)
            then Some(Read(PortEntryOf(item), i + |PrintPort(item)|)) else None
  {
    hide ObjectAt, FormatInt, At;
    var last := BYTES_KEY + (PrintSum(item.sum) + ("}" + ""));
    assert "}" + "" == "}";
    var mid := PROTO_KEY + (PrintMaybe(item.key.proto, item.key.protoNull) + ("," + last));
    var first := PORT_KEY + (PrintMaybe(item.key.port, item.key.portNull) + ("," + mid));
    assert PrintPort(item) == "{" + first;
    AtConcat(b, i, "{", first);
    BraceAt(b, i);
    OneField(b, i + 1, map[], PortField, PORT_KEY, item.key.port, item.key.portNull, ",", mid);
    var j := i + 1 + |PORT_KEY| + |PrintMaybe(item.key.port, item.key.portNull)| + 1;
    AtBound(b, j, mid);
    OneField(b, j, map[PortField := item.key.port], ProtoField, PROTO_KEY, item.key.proto, item.key.protoNull, ",",
        last);
    var k := j + |PROTO_KEY| + |PrintMaybe(item.key.proto, item.key.protoNull)| + 1;
    AtBound(b, k, last);
    var n := if item.sum.Num? then item.sum.n else 0;
    assert PrintSum(item.sum) == PrintMaybe(n, item.sum.Null?);
    OneField(b, k, map[PortField := item.key.port, ProtoField := item.key.proto], BytesField, BYTES_KEY, n,
        item.sum.Null?, "}", "");
    assert |first| == |PORT_KEY| + |PrintMaybe(item.key.port, item.key.portNull)| + 1 + |mid|;
  }

  lemma BraceAt(b: string, i: nat)
    requires At(b, i, "{")
    ensures i < |b| && b[i] == '{'
  {
    assert b[i..i + 1][0] == b[i];
  }

  lemma AtBound(b: string, i: nat, s: string)
    requires At(b, i, s)
    ensures i + |s| <= |b|
  {
  }

  lemma {:induction false} PortsRead(b: string, i: nat, list: seq<Item<PortKey>>)
    requires i <= |b| && list != [] && b[i..] == PrintPorts(list)
    ensures ObjectsAt(b, i) == if AllPortsReadable(list) then Some(PortEntriesOf(list)) else None
    decreases |list|
  {
    hide ObjectAt, PrintPort, PortReadable, At, AllPortsReadable;
    var first := PrintPort(list[0]);
    var tail := if |list| == 1 then "]" else "," + PrintPorts(list[1..]);
    var j := i + |first|;
    TailAt(b, i, first, tail);
    PortReads(b, i, list[0]);
    PortsReadableSplit(list);
    if |list| == 1 {
      assert PortEntriesOf(list) == [PortEntryOf(list[0])];
    } else {
      assert tail[1..] == PrintPorts(list[1..]);
      PortsRead(b, j + 1, list[1..]);
      assert PortEntriesOf(list) == [PortEntryOf(list[0])] + PortEntriesOf(list[1..]);
    }
  }

  lemma PortsReadableSplit(list: seq<Item<PortKey>>)
    requires list != []
    ensures AllPortsReadable(list) <==> PortReadable(list[0]) && AllPortsReadable(list[1..])
    ensures |list| == 1 ==> AllPortsReadable(list[1..])
  {
    hide PortReadable;
    if PortReadable(list[0]) && AllPortsReadable(list[1..]) {
      forall i | 0 <= i < |list|
        ensures PortReadable(list[i])
      {
        if i > 0 {
          assert list[i] == list[1..][i - 1];
        }
      }
    }
  }

  /** The port parser undoes the printer exactly when every key and sum is a number above the smallest int64. */
  lemma PortsRoundTrip(list: seq<Item<PortKey>>)
    ensures PortList(PrintPortList(list)) == if AllPortsReadable(list) then Some(PortEntriesOf(list)) else None
  {
    var b := PrintPortList(list);
    if list != [] {
      assert b[1..] == PrintPorts(list);
      LastBracket(list);
      assert PrintPorts(list)[0] == PrintPort(list[0])[0] == '{';
      PortsRead(b, 1, list);
    }
  }

  lemma {:induction false} LastBracket(list: seq<Item<PortKey>>)
    requires list != []
    ensures var s := PrintPorts(list); s != "" && s[|s| - 1] == ']'
    decreases |list|
  {
    hide PrintPort;
    if |list| > 1 {
      LastBracket(list[1..]);
    }
  }

  // ---- Protocol lists.

  function IntsAt(b: string, i: nat): Option<seq<int>>
    requires i <= |b|
    decreases |b| - i
  {
    var n := NumberAt(b, i);
    if n.None? || n.value.next >= |b| then None
    else
      var j := n.value.next;
      if b[j] == ']' then if j == |b| - 1 then Some([n.value.value]) else None
      else if b[j] != ',' then None
      else
        var rest := IntsAt(b, j + 1);
        if rest.None? then None else Some([n.value.value] + rest.value)
  }

  function IntArray(b: string): Option<seq<int>> {
    if |b| < 2 || b[0] != '[' || b[|b| - 1] != ']' then None
    else if b[1] == ']' then Some([])
    else IntsAt(b, 1)
  }

  /** formatProtocols: a null key is written as null. */
  function PrintID(k: ProtoKey): string {
    PrintMaybe(if k.Proto? then k.id else 0, k.NullKey?)
  }

  function PrintInts(list: seq<ProtoKey>): string
    requires list != []
  {
    PrintID(list[0]) + if |list| == 1 then "]" else "," + PrintInts(list[1..])
  }

  function PrintIntArray(list: seq<ProtoKey>): string {
    if list == [] then "[]" else "[" + PrintInts(list)
  }

  ghost predicate AllNumbers(list: seq<ProtoKey>) {
    forall k :: k in list ==> k.Proto? && InRange(k.id)
  }

  function IdsOf(list: seq<ProtoKey>): (ids: seq<int>)
    ensures |ids| == |list|
  {
    seq(|list|, i requires 0 <= i < |list| => if list[i].Proto? then list[i].id else 0)
  }

  function ProtosOf(ids: seq<int>): (list: seq<ProtoKey>)
    ensures |ids| == |list|
  {
    seq(|ids|, i requires 0 <= i < |ids| => Proto(ids[i]))
  }

  lemma {:induction false} IntsRead(b: string, i: nat, list: seq<ProtoKey>)
    requires i <= |b| && list != [] && b[i..] == PrintInts(list)
    ensures IntsAt(b, i) == if AllNumbers(list) then Some(IdsOf(list)) else None
    decreases |list|
  {
    hide NumberAt, FormatInt, InRange, AllNumbers, PrintID, At, Ends;
    var first := PrintID(list[0]);
    var tail := if |list| == 1 then "]" else "," + PrintInts(list[1..]);
    var j := i + |first|;
    TailAt(b, i, first, tail);
    IDReads(b, i, list[0]);
    NumbersSplit(list);
    if |list| > 1 {
      assert tail[1..] == PrintInts(list[1..]);
      IntsRead(b, j + 1, list[1..]);
      assert IdsOf(list) == [IdsOf(list)[0]] + IdsOf(list[1..]);
    } else {
      assert IdsOf(list) == [IdsOf(list)[0]];
    }
  }

  lemma IDReads(b: string, i: nat, k: ProtoKey)
    requires At(b, i, PrintID(k)) && i + |PrintID(k)| < |b| && (b[i + |PrintID(k)|] == ']' || b[i + |PrintID(k)|]
             == ',')
    ensures NumberAt(b, i) == if k.Proto? && InRange(k.id) then Some(Number(k.id, i + |PrintID(k)|)) else None
  {
    MaybeReads(b, i, if k.Proto? then k.id else 0, k.NullKey?);
  }

  lemma NumbersSplit(list: seq<ProtoKey>)
    requires list != []
    ensures AllNumbers(list) <==> list[0].Proto? && InRange(list[0].id) && AllNumbers(list[1..])
    ensures |list| == 1 ==> AllNumbers(list[1..])
  {
    hide InRange;
    assert list == [list[0]] + list[1..];
    assert forall x :: x in list <==> x == list[0] || x in list[1..];
  }

  /** A printed protocol list reads back exactly when no key is null and every number is above the smallest int64. */
  lemma IntArrayRoundTrip(list: seq<ProtoKey>)
    ensures IntArray(PrintIntArray(list)) == if AllNumbers(list) then Some(IdsOf(list)) else None
  {
    if list != [] {
      var b := "[" + PrintInts(list);
      assert b[1..] == PrintInts(list);
      LastOfInts(list);
      assert b[1] == PrintID(list[0])[0];
      IntsRead(b, 1, list);
    }
  }

  lemma {:induction false} LastOfInts(list: seq<ProtoKey>)
    requires list != []
    ensures var s := PrintInts(list); s != "" && s[|s| - 1] == ']'
    decreases |list|
  {
    hide PrintID;
    if |list| > 1 {
      LastOfInts(list[1..]);
    }
  }

  lemma {:induction false} IntsArePrinted(b: string, i: nat)
    requires i <= |b| && IntsAt(b, i).Some?
    ensures var ids := IntsAt(b, i).value;
            ids != [] && b[i..] == PrintInts(ProtosOf(ids)) && AllNumbers(ProtosOf(ids))
    decreases |b| - i
  {
    hide NumberAt, FormatInt, InRange, AllNumbers;
    var ids := IntsAt(b, i).value;
    NumberIsPrinted(b, i);
    var n := NumberAt(b, i).value;
    RangeOf(n.value);
    var list := ProtosOf(ids);
    assert AllNumbers([]) by { NoNumbers(); }
    NumbersSplit(list);
    if b[n.next] == ']' {
      assert list == [Proto(n.value)];
      assert b[i..] == b[i..n.next] + "]";
    } else {
      IntsArePrinted(b, n.next + 1);
      assert ids[1..] == IntsAt(b, n.next + 1).value;
      assert list[1..] == ProtosOf(ids[1..]);
      assert b[i..] == b[i..n.next] + ("," + b[n.next + 1..]);
    }
  }

  lemma NoNumbers()
    ensures AllNumbers([])
  {
  }

  /**
   parseIntArray accepts printed lists of in-range numbers, and any text that starts with an empty list and ends with
   a bracket.
   */
  lemma IntArrayAcceptsOnlyPrinted(b: string, ids: seq<int>)
    ensures IntArray(b) == Some(ids)
       <==> (ids != [] && b == PrintIntArray(ProtosOf(ids)) && AllNumbers(ProtosOf(ids)))
            || (ids == [] && |b| >= 2 && b[..2] == "[]" && b[|b| - 1] == ']')
  {
    if ids != [] && b == PrintIntArray(ProtosOf(ids)) && AllNumbers(ProtosOf(ids)) {
      IntArrayRoundTrip(ProtosOf(ids));
      assert IdsOf(ProtosOf(ids)) == ids;
    }
    if IntArray(b) == Some(ids) && b[1] != ']' {
      IntsArePrinted(b, 1);
      assert b == "[" + b[1..];
    }
    if |b| >= 2 && b[..2] == "[]" {
      assert b[0] == b[..2][0] && b[1] == b[..2][1];
    }
    if |b| >= 2 && b[0] == '[' && b[1] == ']' {
      assert b[..2] == "[]";
    }
  }

  method ParseIntArray(b: string) returns (out: seq<int>, ok: bool)
    ensures ok <==> IntArray(b).Some?
    ensures ok ==> out == IntArray(b).value
  {
    out, ok := [], false;
    if |b| < 2 || b[0] != '[' || b[|b| - 1] != ']' {
      return;
    }
    var i := 1;
    if b[i] == ']' {
      ok := true;
      return;
    }
    assert IntArray(b) == Appended([], IntsAt(b, 1)) by {
      if IntsAt(b, 1).Some? { assert [] + IntsAt(b, 1).value == IntsAt(b, 1).value; }
    }
    while true
      invariant 1 <= i <= |b|
      invariant IntArray(b) == Appended(out, IntsAt(b, i))
      decreases |b| - i
    {
      hide NumberAt, IntArray;
      IntsStep(b, i, out);
      var v, next, good := ParseJSONInt(b, i);
      if !good {
        return;
      }
      out := out + [v];
      i := next;
      if i >= |b| {
        return;
      }
      if b[i] == ']' {
        ok := i == |b| - 1;
        return;
      }
      if b[i] != ',' {
        return;
      }
      i := i + 1;
    }
  }

  lemma IntsStep(b: string, i: nat, front: seq<int>)
    requires i <= |b|
    ensures var all := Appended(front, IntsAt(b, i));
            var n := NumberAt(b, i);
            if n.None? || n.value.next >= |b| then all == None
            else
              var j, next := n.value.next, front + [n.value.value];
              if b[j] == ']' then all == if j == |b| - 1 then Some(next) else None
              else if b[j] == ',' then all == Appended(next, IntsAt(b, j + 1))
              else all == None
  {
    hide NumberAt;
    var n := NumberAt(b, i);
    if n.Some? && n.value.next < |b| && b[n.value.next] == ',' {
      var rest := IntsAt(b, n.value.next + 1);
      if rest.Some? {
        assert front + ([n.value.value] + rest.value) == front + [n.value.value] + rest.value;
      }
    }
  }
}

/**
 Which texts parsePortList accepts (stats_single_pass_json.go): lists of
 objects that hold port, proto and bytes once each, in any order and without
 spaces, and any text that starts with an empty list and ends with a bracket.
 */
module PortsAccept {
  import opened PairGroups
  import opened JsonInt
  import opened StatsJson
  import opened PortsJson

  function KeyOf(f: Field): string {
    match f
    case PortField => PORT_KEY
    case ProtoField => PROTO_KEY
    case BytesField => BYTES_KEY
  }

  function ValueOf(f: Field, e: PortEntry): int {
    match f
    case PortField => e.port
    case ProtoField => e.proto
    case BytesField => e.bytes
  }

  predicate EntryInRange(e: PortEntry) {
    InRange(e.port) && InRange(e.proto) && InRange(e.bytes)
  }

  /** Fields of an object in some order, up to its brace. */
  function PrintFields(order: seq<Field>, e: PortEntry): string
    requires order != []
  {
    KeyOf(order[0]) + (FormatInt(ValueOf(order[0], e)) +
        if |order| == 1 then "}" + "" else "," + PrintFields(order[1..], e))
  }

  ghost predicate Distinct(order: seq<Field>) {
    forall i, j :: 0 <= i < j < |order| ==> order[i] != order[j]
  }

  /** order names exactly the fields that vals does not have yet. */
  ghost predicate Completes(order: seq<Field>, vals: map<Field, int>) {
    Distinct(order) && forall f: Field :: f in vals <==> f !in order
  }

  ghost predicate Agrees(vals: map<Field, int>, e: PortEntry) {
    forall f :: f in vals ==> vals[f] == ValueOf(f, e) && InRange(vals[f])
  }

  lemma CompletesTail(order: seq<Field>, vals: map<Field, int>, n: int)
    requires Completes(order, vals) && order != []
    ensures order[0] !in vals && Completes(order[1..], vals[order[0] := n])
    ensures |order| == 1 ==>
            PortField in vals[order[0] := n] && ProtoField in vals[order[0] := n] && BytesField in vals[order[0] := n]
  {
    assert order == [order[0]] + order[1..];
    assert forall i :: 0 < i < |order| ==> order[i] == order[1..][i - 1];
    forall f: Field
      ensures f in order <==> f == order[0] || f in order[1..]
    {
    }
    forall f | f in order[1..]
      ensures f != order[0]
    {
      var i :| 0 <= i < |order[1..]| && order[1..][i] == f;
      assert order[i + 1] == f;
    }
  }

  /** Whatever the order, the fields of an entry in range read as the entry. */
  lemma {:induction false} FieldsRead(b: string, i: nat, order: seq<Field>, vals: map<Field, int>, e: PortEntry)
    requires i <= |b| && order != [] && Completes(order, vals) && Agrees(vals, e) && EntryInRange(e)
    requires At(b, i, PrintFields(order, e))
    ensures ObjectAt(b, i, vals) == Some(Read(e, i + |PrintFields(order, e)|))
    decreases |order|
  {
    hide At, FormatInt, ObjectAt, InRange, Completes, Distinct;
    var f, n := order[0], ValueOf(order[0], e);
    CompletesTail(order, vals, n);
    assert InRange(n) by { FieldInRange(f, e); }
    var rest := if |order| == 1 then "" else PrintFields(order[1..], e);
    OneField(b, i, vals, f, KeyOf(f), n, false, if |order| == 1 then "}" else ",", rest);
    var j := i + |KeyOf(f)| + |FormatInt(n)|;
    if |order| > 1 {
      AtBound(b, j + 1, rest);
      FieldsRead(b, j + 1, order[1..], vals[f := n], e);
    } else {
      var now := vals[f := n];
      assert PortField in now && ProtoField in now && BytesField in now;
      assert now[PortField] == e.port && now[ProtoField] == e.proto && now[BytesField] == e.bytes by {
        assert Agrees(now, e);
      }
    }
  }

  lemma FieldInRange(f: Field, e: PortEntry)
    requires EntryInRange(e)
    ensures InRange(ValueOf(f, e))
  {
  }

  /** What reads as an object is its fields in some order. */
  lemma {:induction false} FieldsArePrinted(b: string, i: nat, vals: map<Field, int>) returns (order: seq<Field>)
    requires i <= |b| && ObjectAt(b, i, vals).Some? && forall f :: f in vals ==> InRange(vals[f])
    ensures var o := ObjectAt(b, i, vals).value;
            && order != [] && Completes(order, vals) && Agrees(vals, o.item) && EntryInRange(o.item)
            && b[i..o.next] == PrintFields(order, o.item)
    decreases |b| - i
  {
    hide NumberAt, FormatInt, InRange, Completes, Distinct, At, Agrees, EntryInRange, PrintFields, ObjectAt, FieldAt;
    var o := ObjectAt(b, i, vals).value;
    ObjectStep(b, i, vals);
    var f := FieldAt(b, i).value;
    FieldIsPrinted(b, i);
    NumberIsPrinted(b, f.next);
    var n := NumberAt(b, f.next).value;
    RangeOf(n.value);
    var now, j := vals[f.item := n.value], n.next;
    if b[j] == '}' {
      order := [f.item];
      LastField(vals, f.item, n.value);
      LastAgrees(vals, f.item, n.value);
      PrintLast(f.item, o.item);
      assert b[i..j + 1] == b[i..f.next] + (b[f.next..j] + "}");
    } else {
      var rest := FieldsArePrinted(b, j + 1, now);
      order := [f.item] + rest;
      FirstField(vals, f.item, n.value, rest);
      MoreAgrees(vals, f.item, n.value, o.item);
      PrintMore(f.item, rest, o.item);
      assert b[i..o.next] == b[i..f.next] + (b[f.next..j] + ("," + b[j + 1..o.next]));
    }
  }

  lemma PrintLast(f: Field, e: PortEntry)
    ensures PrintFields([f], e) == KeyOf(f) + (FormatInt(ValueOf(f, e)) + "}")
  {
    assert "}" + "" == "}";
  }

  lemma PrintMore(f: Field, rest: seq<Field>, e: PortEntry)
    requires rest != []
    ensures PrintFields([f] + rest, e) == KeyOf(f) + (FormatInt(ValueOf(f, e)) + ("," + PrintFields(rest, e)))
  {
    assert ([f] + rest)[1..] == rest;
  }

  lemma LastAgrees(vals: map<Field, int>, f: Field, n: int)
    requires f !in vals && InRange(n) && forall g :: g in vals ==> InRange(vals[g])
    requires PortField in vals[f := n] && ProtoField in vals[f := n] && BytesField in vals[f := n]
    ensures var now := vals[f := n];
            var e := PortEntry(now[ProtoField], now[PortField], now[BytesField]);
            Agrees(vals, e) && EntryInRange(e) && ValueOf(f, e) == n
  {
    hide InRange;
  }

  lemma MoreAgrees(vals: map<Field, int>, f: Field, n: int, e: PortEntry)
    requires f !in vals && Agrees(vals[f := n], e)
    ensures Agrees(vals, e) && ValueOf(f, e) == n
  {
    var now := vals[f := n];
    assert f in now;
    assert forall g :: g in vals ==> g in now && now[g] == vals[g];
  }

  lemma FieldIsPrinted(b: string, i: nat)
    requires FieldAt(b, i).Some?
    ensures b[i..FieldAt(b, i).value.next] == KeyOf(FieldAt(b, i).value.item)
  {
    KeyLengths();
  }

  lemma LastField(vals: map<Field, int>, f: Field, n: int)
    requires f !in vals && PortField in vals[f := n] && ProtoField in vals[f := n] && BytesField in vals[f := n]
    ensures Completes([f], vals)
  {
    forall g: Field
      ensures g in vals <==> g !in [f]
    {
      assert g == PortField || g == ProtoField || g == BytesField;
    }
  }

  lemma FirstField(vals: map<Field, int>, f: Field, n: int, rest: seq<Field>)
    requires f !in vals && Completes(rest, vals[f := n])
    ensures Completes([f] + rest, vals)
  {
    var order := [f] + rest;
    assert f in vals[f := n];
    assert f !in rest;
    forall i, j | 0 <= i < j < |order|
      ensures order[i] != order[j]
    {
      assert order[j] == rest[j - 1] && rest[j - 1] in rest;
      if i > 0 {
        assert order[i] == rest[i - 1];
      }
    }
    forall g: Field
      ensures g in vals <==> g !in order
    {
      assert g in order <==> g == f || g in rest;
      assert g in vals[f := n] <==> g in vals || g == f;
    }
  }

  // ---- Lists.

  ghost predicate Orders(orders: seq<seq<Field>>) {
    forall i :: 0 <= i < |orders| ==> orders[i] != [] && Completes(orders[i], map[])
  }

  function PrintObjects(es: seq<PortEntry>, orders: seq<seq<Field>>): string
    requires es != [] && |orders| == |es| && forall i :: 0 <= i < |orders| ==> orders[i] != []
  {
    "{" + (PrintFields(orders[0], es[0]) + if |es| == 1 then "]" else "," + PrintObjects(es[1..], orders[1..]))
  }

  ghost predicate AllEntriesInRange(es: seq<PortEntry>) {
    forall i :: 0 <= i < |es| ==> EntryInRange(es[i])
  }

  lemma {:induction false} ObjectsRead(b: string, i: nat, es: seq<PortEntry>, orders: seq<seq<Field>>)
    requires i <= |b| && es != [] && |orders| == |es| && Orders(orders) && AllEntriesInRange(es)
    requires b[i..] == PrintObjects(es, orders)
    ensures ObjectsAt(b, i) == Some(es)
    decreases |es|
  {
    hide ObjectAt, PrintFields, EntryInRange, At, Completes, Orders, AllEntriesInRange;
    SplitLists(es, orders);
    var first := PrintFields(orders[0], es[0]);
    var tail := if |es| == 1 then "]" else "," + PrintObjects(es[1..], orders[1..]);
    SplitBrace(b, i, first, tail);
    TailAt(b, i + 1, first, tail);
    FieldsRead(b, i + 1, orders[0], map[], es[0]);
    var j := i + 1 + |first|;
    if |es| > 1 {
      assert tail[1..] == PrintObjects(es[1..], orders[1..]);
      ObjectsRead(b, j + 1, es[1..], orders[1..]);
      assert es == [es[0]] + es[1..];
    } else {
      assert es == [es[0]];
    }
  }

  lemma {:induction false} ObjectsArePrinted(b: string, i: nat) returns (orders: seq<seq<Field>>)
    requires i <= |b| && ObjectsAt(b, i).Some?
    ensures var es := ObjectsAt(b, i).value;
            && es != [] && |orders| == |es| && Orders(orders) && AllEntriesInRange(es)
            && b[i..] == PrintObjects(es, orders)
    decreases |b| - i
  {
    hide ObjectAt, PrintFields, EntryInRange, Completes, Orders, AllEntriesInRange;
    var o := ObjectAt(b, i + 1, map[]).value;
    var order := FieldsArePrinted(b, i + 1, map[]);
    var j := o.next;
    var es := ObjectsAt(b, i).value;
    if b[j] == ']' {
      orders := [order];
      JoinLists(es, orders);
      assert b[i..] == "{" + (b[i + 1..j] + "]");
    } else {
      var rest := ObjectsArePrinted(b, j + 1);
      orders := [order] + rest;
      assert es[1..] == ObjectsAt(b, j + 1).value && orders[1..] == rest;
      assert b[i..] == "{" + (b[i + 1..j] + ("," + b[j + 1..]));
      JoinLists(es, orders);
    }
  }

  lemma SplitLists(es: seq<PortEntry>, orders: seq<seq<Field>>)
    requires es != [] && |orders| == |es| && Orders(orders) && AllEntriesInRange(es)
    ensures orders[0] != [] && Completes(orders[0], map[]) && EntryInRange(es[0])
    ensures Orders(orders[1..]) && AllEntriesInRange(es[1..])
  {
  }

  lemma JoinLists(es: seq<PortEntry>, orders: seq<seq<Field>>)
    requires es != [] && |orders| == |es| && orders[0] != [] && Completes(orders[0], map[]) && EntryInRange(es[0])
    requires |es| > 1 ==> Orders(orders[1..]) && AllEntriesInRange(es[1..])
    ensures Orders(orders) && AllEntriesInRange(es)
  {
    hide Completes, EntryInRange;
    forall k | 0 <= k < |es|
      ensures EntryInRange(es[k]) && orders[k] != [] && Completes(orders[k], map[])
    {
      if k > 0 {
        assert es[k] == es[1..][k - 1] && orders[k] == orders[1..][k - 1];
      }
    }
  }

  lemma SplitBrace(b: string, i: nat, first: string, tail: string)
    requires i <= |b| && b[i..] == "{" + (first + tail)
    ensures i < |b| && b[i] == '{' && b[i + 1..] == first + tail
  {
    assert b[i..][0] == b[i] && b[i..][1..] == b[i + 1..];
  }

  ghost predicate PrintsAs(b: string, es: seq<PortEntry>, orders: seq<seq<Field>>) {
    es != [] && |orders| == |es| && Orders(orders) && b == "[" + PrintObjects(es, orders)
  }

  /** parsePortList reads es from exactly the texts that list them, each object's fields in some order. */
  lemma AcceptsOnlyPrintedPorts(b: string, es: seq<PortEntry>)
    ensures PortList(b) == Some(es)
       <==> (es != [] && AllEntriesInRange(es) && exists orders :: PrintsAs(b, es, orders))
            || (es == [] && |b| >= 2 && b[..2] == "[]" && b[|b| - 1] == ']')
  {
    if es != [] && AllEntriesInRange(es) && exists orders :: PrintsAs(b, es, orders) {
      var orders :| PrintsAs(b, es, orders);
      PrintedPortsRead(b, es, orders);
    }
    hide ObjectsAt, AllEntriesInRange, Orders;
    if PortList(b) == Some(es) && b[1] != ']' {
      var orders := ObjectsArePrinted(b, 1);
      assert b == "[" + b[1..];
      assert PrintsAs(b, es, orders);
    }
    if |b| >= 2 && b[..2] == "[]" {
      assert b[0] == b[..2][0] && b[1] == b[..2][1];
    }
    if |b| >= 2 && b[0] == '[' && b[1] == ']' {
      assert b[..2] == "[]";
    }
  }

  lemma PrintedPortsRead(b: string, es: seq<PortEntry>, orders: seq<seq<Field>>)
    requires AllEntriesInRange(es) && PrintsAs(b, es, orders)
    ensures PortList(b) == Some(es)
  {
    hide ObjectsAt, AllEntriesInRange, PrintFields, Completes;
    var text := PrintObjects(es, orders);
    LastOfObjects(es, orders);
    assert b[1..] == text;
    assert b[1] == text[0] == '{' && b[|b| - 1] == text[|text| - 1];
    ObjectsRead(b, 1, es, orders);
  }

  lemma {:induction false} LastOfObjects(es: seq<PortEntry>, orders: seq<seq<Field>>)
    requires es != [] && |orders| == |es| && forall i :: 0 <= i < |orders| ==> orders[i] != []
    ensures var s := PrintObjects(es, orders); s != "" && s[|s| - 1] == ']'
    decreases |es|
  {
    hide PrintFields;
    if |es| > 1 {
      LastOfObjects(es[1..], orders[1..]);
    }
  }
}

/**
 The strict parsers of the derived stats (stats_single_pass_json.go) against
 the printers that write the columns (node_pair_read.go). The parser of a
 protocol column accepts exactly what the printer makes of in-range numbers,
 plus a family of texts that begin with an empty object.
 */
module StatsJson {
  import opened PairGroups
  import opened SumSets
  import opened JsonInt

  /** s stands at position i of b. */
  predicate At(b: string, i: nat, s: string) {
    i + |s| <= |b| && b[i..i + |s|] == s
  }

  lemma AtConcat(b: string, i: nat, x: string, y: string)
    ensures At(b, i, x + y) <==> At(b, i, x) && At(b, i + |x|, y)
  {
    if At(b, i, x + y) {
      assert b[i..i + |x|] == b[i..i + |x + y|][..|x|];
      assert b[i + |x|..i + |x| + |y|] == b[i..i + |x + y|][|x|..];
    }
    if At(b, i, x) && At(b, i + |x|, y) {
      assert b[i..i + |x| + |y|] == b[i..i + |x|] + b[i + |x|..i + |x| + |y|];
    }
  }

  predicate InRange(n: int) {
    -MAX_INT64 <= n <= MAX_INT64
  }

  // ---- Protocol columns.

  /** isNull is the "null" key of an hour row. */
  datatype ProtoEntry = ProtoEntry(isNull: bool, proto: int, bytes: int)

  datatype Read<T> = Read(item: T, next: nat)

  function KeyAt(b: string, i: nat): (k: Option<Read<ProtoKey>>)
    requires i <= |b|
    ensures k.Some? ==> i < k.value.next <= |b|
  {
    if At(b, i, "null\"") then Some(Read(NullKey, i + 4))
    else
      var n := NumberAt(b, i);
      if n.None? then None else Some(Read(Proto(n.value.value), n.value.next))
  }

  function EntryAt(b: string, i: nat): (e: Option<Read<ProtoEntry>>)
    requires i <= |b|
    ensures e.Some? ==> i < e.value.next <= |b|
  {
    if i >= |b| || b[i] != '\"' then None
    else
      var k := KeyAt(b, i + 1);
      if k.None? || !At(b, k.value.next, "\":") then None
      else
        var n := NumberAt(b, k.value.next + 2);
        if n.None? then None
        else
          var key := k.value.item;
          Some(Read(ProtoEntry(key.NullKey?, if key.Proto? then key.id else 0, n.value.value), n.value.next))
  }

  function EntriesAt(b: string, i: nat): Option<seq<ProtoEntry>>
    requires i <= |b|
    decreases |b| - i
  {
    var e := EntryAt(b, i);
    if e.None? then None
    else
      var j := e.value.next;
      if j >= |b| then None
      else if b[j] == '}' then if j == |b| - 1 then Some([e.value.item]) else None
      else if b[j] != ',' then None
      else
        var rest := EntriesAt(b, j + 1);
        if rest.None? then None else Some([e.value.item] + rest.value)
  }

  function ProtocolBytes(b: string): Option<seq<ProtoEntry>> {
    if |b| < 2 || b[0] != '{' || b[|b| - 1] != '}' then None
    else if b[1] == '}' then Some([])
    else EntriesAt(b, 1)
  }

  method ParseProtocolBytes(b: string) returns (entries: seq<ProtoEntry>, ok: bool)
    ensures ok <==> ProtocolBytes(b).Some?
    ensures ok ==> entries == ProtocolBytes(b).value
  {
    hide EntryAt, EntriesAt, Appended;
    entries, ok := [], false;
    if |b| < 2 || b[0] != '{' || b[|b| - 1] != '}' {
      return;
    }
    var i := 1;
    if b[i] == '}' {
      ok := true;
      return;
    }
    AppendedNothing(EntriesAt(b, i));
    while true
      invariant 1 <= i <= |b|
      invariant ProtocolBytes(b) == Appended(entries, EntriesAt(b, i))
      decreases |b| - i
    {
      hide ProtocolBytes;
      EntriesStep(b, i, entries);
      var e, next, good := ParseEntry(b, i);
      if !good {
        return;
      }
      i := next;
      entries := entries + [e];
      if i >= |b| {
        return;
      }
      if b[i] == '}' {
        ok := i == |b| - 1;
        return;
      }
      if b[i] != ',' {
        return;
      }
      i := i + 1;
    }
  }

  lemma QuoteColon(b: string, i: nat)
    ensures At(b, i, "\":") <==> i + 1 < |b| && b[i] == '\"' && b[i + 1] == ':'
  {
    if i + 1 < |b| {
      assert b[i..i + 2] == [b[i], b[i + 1]];
    }
  }

  /** One key and value of the object. */
  method ParseEntry(b: string, at: nat) returns (e: ProtoEntry, next: nat, ok: bool)
    requires at <= |b|
    ensures ok <==> EntryAt(b, at).Some?
    ensures ok ==> EntryAt(b, at) == Some(Read(e, next))
  {
    hide NumberAt;
    e, next, ok := ProtoEntry(false, 0, 0), at, false;
    var i := at;
    if i >= |b| || b[i] != '\"' {
      return;
    }
    i := i + 1;
    var isNull := false;
    var proto := 0;
    if i + 5 <= |b| && b[i..i + 5] == "null\"" {
      isNull := true;
      i := i + 4;
    } else {
      var good;
      proto, i, good := ParseJSONInt(b, i);
      if !good {
        assert KeyAt(b, at + 1) == None;
        return;
      }
    }
    assert KeyAt(b, at + 1) == Some(Read(if isNull then NullKey else Proto(proto), i));
    QuoteColon(b, i);
    hide KeyAt, At;
    if i + 1 >= |b| || b[i] != '\"' || b[i + 1] != ':' {
      return;
    }
    var bytes, after, good := ParseJSONInt(b, i + 2);
    if !good {
      return;
    }
    e, next, ok := ProtoEntry(isNull, proto, bytes), after, true;
  }

  function Appended<T>(front: seq<T>, rest: Option<seq<T>>): Option<seq<T>> {
    if rest.None? then None else Some(front + rest.value)
  }

  lemma EntriesStep(b: string, i: nat, front: seq<ProtoEntry>)
    requires i <= |b|
    ensures var all := Appended(front, EntriesAt(b, i));
            var e := EntryAt(b, i);
            if e.None? || e.value.next >= |b| then all == None
            else
              var j, next := e.value.next, front + [e.value.item];
              if b[j] == '}' then all == if j == |b| - 1 then Some(next) else None
              else if b[j] == ',' then all == Appended(next, EntriesAt(b, j + 1))
              else all == None
  {
    hide EntryAt;
    var e := EntryAt(b, i);
    if e.Some? && e.value.next < |b| && b[e.value.next] == ',' {
      var rest := EntriesAt(b, e.value.next + 1);
      if rest.Some? {
        assert front + ([e.value.item] + rest.value) == front + [e.value.item] + rest.value;
      }
    }
  }

  lemma AppendedNothing<T>(rest: Option<seq<T>>)
    ensures Appended([], rest) == rest
  {
    if rest.Some? {
      assert [] + rest.value == rest.value;
    }
  }

  // ---- The printer of protocol columns.

  /** writeSum */
  function PrintSum(s: Sum): string {
    if s.Null? then "null" else FormatInt(s.n)
  }

  function PrintKey(k: ProtoKey): string {
    if k.NullKey? then "null" else FormatInt(k.id)
  }

  function PrintEntry(item: Item<ProtoKey>): string {
    "\"" + (PrintKey(item.key) + ("\":" + PrintSum(item.sum)))
  }

  /** Entries and the closing brace. */
  function PrintEntries(list: seq<Item<ProtoKey>>): string
    requires list != []
  {
    PrintEntry(list[0]) + if |list| == 1 then "}" else "," + PrintEntries(list[1..])
  }

  function PrintProtocols(list: seq<Item<ProtoKey>>): string {
    if list == [] then "{}" else "{" + PrintEntries(list)
  }

  /** A key and sum the parser can read back. */
  predicate Readable(item: Item<ProtoKey>) {
    item.sum.Num? && InRange(item.sum.n) && (item.key.Proto? ==> InRange(item.key.id))
  }

  function EntryOf(item: Item<ProtoKey>): ProtoEntry {
    ProtoEntry(item.key.NullKey?, if item.key.Proto? then item.key.id else 0, if item.sum.Num? then item.sum.n else 0)
  }

  function EntriesOf(list: seq<Item<ProtoKey>>): (entries: seq<ProtoEntry>)
    ensures |entries| == |list|
  {
    seq(|list|, i requires 0 <= i < |list| => EntryOf(list[i]))
  }

  predicate AllReadable(list: seq<Item<ProtoKey>>) {
    forall i :: 0 <= i < |list| ==> Readable(list[i])
  }

  /** No digit, fraction or exponent follows. */
  predicate Ends(b: string, i: nat) {
    i < |b| && !IsDigit(b[i]) && !MoreNumber(b, i)
  }

  lemma SumReads(b: string, i: nat, s: Sum)
    requires At(b, i, PrintSum(s)) && Ends(b, i + |PrintSum(s)|)
    ensures NumberAt(b, i) == if s.Num? && InRange(s.n) then Some(Number(s.n, i + |PrintSum(s)|)) else None
  {
    if s.Num? {
      PrintedNumber(b, i, s.n);
    } else {
      assert b[i] == PrintSum(s)[0];
    }
  }

  lemma NotNullText(b: string, i: nat)
    requires i < |b| && b[i] != 'n'
    ensures !At(b, i, "null\"")
  {
    assert |"null\""| == 5 && "null\""[0] == 'n';
    if i + 5 <= |b| {
      assert b[i..i + 5][0] == b[i];
    }
  }

  lemma KeyReads(b: string, i: nat, k: ProtoKey)
    requires At(b, i, PrintKey(k) + "\"")
    ensures KeyAt(b, i) == if k.Proto? && !InRange(k.id) then None else Some(Read(k, i + |PrintKey(k)|))
  {
    AtConcat(b, i, PrintKey(k), "\"");
    if k.Proto? {
      assert b[i] == FormatInt(k.id)[0];
      assert b[i + |PrintKey(k)|] == '\"';
      NotNullText(b, i);
      PrintedNumber(b, i, k.id);
    } else {
      assert PrintKey(k) + "\"" == "null\"";
    }
  }

  lemma EntryReads(b: string, i: nat, item: Item<ProtoKey>)
    requires At(b, i, PrintEntry(item)) && Ends(b, i + |PrintEntry(item)|)
    ensures EntryAt(b, i) == if Readable(item) then Some(Read(EntryOf(item), i + |PrintEntry(item)|)) else None
  {
    hide NumberAt, FormatInt, At, KeyAt, PrintKey, PrintSum, InRange;
    var k := i + 1 + |PrintKey(item.key)|;
    EntryParts(b, i, item);
    KeyReads(b, i + 1, item.key);
    SumReads(b, k + 2, item.sum);
  }

  lemma EntryParts(b: string, i: nat, item: Item<ProtoKey>)
    requires At(b, i, PrintEntry(item))
    ensures var key, sum := PrintKey(item.key), PrintSum(item.sum);
            var k := i + 1 + |key|;
            i < |b| && b[i] == '\"' && At(b, i + 1, key + "\"") && At(b, k, "\":") && At(b, k + 2, sum)
            && |PrintEntry(item)| == 1 + |key| + 2 + |sum|
  {
    hide At, PrintKey, PrintSum;
    var key, sum := PrintKey(item.key), PrintSum(item.sum);
    AtConcat(b, i, "\"", key + ("\":" + sum));
    AtConcat(b, i + 1, key, "\":" + sum);
    AtConcat(b, i + 1 + |key|, "\":", sum);
    AtConcat(b, i + 1 + |key|, "\"", ":");
    AtConcat(b, i + 1, key, "\"");
    assert "\"" + ":" == "\":";
    QuoteAt(b, i);
  }

  lemma QuoteAt(b: string, i: nat)
    requires At(b, i, "\"")
    ensures i < |b| && b[i] == '\"'
  {
    assert b[i..i + 1][0] == b[i];
  }

  /** A text divided at the end of its first part. */
  lemma TailAt(b: string, i: nat, first: string, tail: string)
    requires i <= |b| && b[i..] == first + tail && tail != ""
    ensures var j := i + |first|;
            j < |b| && At(b, i, first) && b[i..j] == first && b[j] == tail[0] && b[j + 1..] == tail[1..] && |b| == j
                + |tail|
  {
    var j := i + |first|;
    assert b[i..j] == b[i..][..|first|];
    assert b[j..] == b[i..][|first|..];
    assert b[j + 1..] == b[j..][1..];
  }

  lemma {:induction false} EntriesRead(b: string, i: nat, list: seq<Item<ProtoKey>>)
    requires i <= |b| && list != [] && b[i..] == PrintEntries(list)
    ensures EntriesAt(b, i) == if AllReadable(list) then Some(EntriesOf(list)) else None
    decreases |list|
  {
    hide EntryAt, PrintEntry, Readable, At, AllReadable;
    var first := PrintEntry(list[0]);
    var tail := if |list| == 1 then "}" else "," + PrintEntries(list[1..]);
    var j := i + |first|;
    TailAt(b, i, first, tail);
    assert Ends(b, j);
    EntryReads(b, i, list[0]);
    ReadableSplit(list);
    if |list| == 1 {
      assert EntriesOf(list) == [EntryOf(list[0])];
      assert list[1..] == [];
      ReadableNone();
    } else {
      assert tail[1..] == PrintEntries(list[1..]);
      EntriesRead(b, j + 1, list[1..]);
      assert EntriesOf(list) == [EntryOf(list[0])] + EntriesOf(list[1..]);
    }
  }

  lemma ReadableNone()
    ensures AllReadable([])
  {
  }

  lemma ReadableSplit(list: seq<Item<ProtoKey>>)
    requires list != []
    ensures AllReadable(list) <==> Readable(list[0]) && AllReadable(list[1..])
  {
    hide Readable;
    if Readable(list[0]) && AllReadable(list[1..]) {
      forall i | 0 <= i < |list|
        ensures Readable(list[i])
      {
        if i > 0 {
          assert list[i] == list[1..][i - 1];
        }
      }
    }
  }

  /**
   The parser undoes the printer, in whatever order the entries were printed,
   exactly when every sum is a number above the smallest int64 and so is
   every key.
   */
  lemma ProtocolsRoundTrip(list: seq<Item<ProtoKey>>)
    ensures ProtocolBytes(PrintProtocols(list)) == if AllReadable(list) then Some(EntriesOf(list)) else None
  {
    var b := PrintProtocols(list);
    if list != [] {
      assert b[1..] == PrintEntries(list);
      LastBrace(list);
      assert b[1] == PrintEntry(list[0])[0] == '\"';
      EntriesRead(b, 1, list);
    }
  }

  lemma {:induction false} LastBrace(list: seq<Item<ProtoKey>>)
    requires list != []
    ensures var s := PrintEntries(list); s != "" && s[|s| - 1] == '}'
    decreases |list|
  {
    hide PrintEntry;
    if |list| > 1 {
      LastBrace(list[1..]);
    }
  }

  function ItemOf(e: ProtoEntry): Item<ProtoKey> {
    Item(if e.isNull then NullKey else Proto(e.proto), Num(e.bytes))
  }

  function ItemsOf(es: seq<ProtoEntry>): (list: seq<Item<ProtoKey>>)
    ensures |list| == |es|
  {
    seq(|es|, i requires 0 <= i < |es| => ItemOf(es[i]))
  }

  lemma KeyIsPrinted(b: string, i: nat)
    requires i <= |b| && KeyAt(b, i).Some?
    ensures var k := KeyAt(b, i).value;
            b[i..k.next] == PrintKey(k.item) && (k.item.Proto? ==> InRange(k.item.id))
  {
    if At(b, i, "null\"") {
      assert b[i..i + 4] == b[i..i + 5][..4];
    } else {
      NumberIsPrinted(b, i);
    }
  }

  lemma EntryIsPrinted(b: string, i: nat)
    requires i <= |b| && EntryAt(b, i).Some?
    ensures var e := EntryAt(b, i).value;
            b[i..e.next] == PrintEntry(ItemOf(e.item)) && Readable(ItemOf(e.item)) && EntryOf(ItemOf(e.item)) == e.item
  {
    hide NumberAt, FormatInt, KeyAt, InRange, PrintKey;
    var k := KeyAt(b, i + 1).value;
    KeyIsPrinted(b, i + 1);
    NumberIsPrinted(b, k.next + 2);
    RangeOf(NumberAt(b, k.next + 2).value.value);
    FourParts(b, i, i + 1, k.next, k.next + 2, NumberAt(b, k.next + 2).value.next);
  }

  lemma RangeOf(n: int)
    ensures -MAX_INT64 <= n <= MAX_INT64 <==> InRange(n)
  {
  }

  lemma FourParts(b: string, i: nat, j: nat, k: nat, l: nat, m: nat)
    requires i <= j <= k <= l <= m <= |b|
    ensures b[i..m] == b[i..j] + (b[j..k] + (b[k..l] + b[l..m]))
  {
  }

  lemma {:induction false} EntriesArePrinted(b: string, i: nat)
    requires i <= |b| && EntriesAt(b, i).Some?
    ensures var es := EntriesAt(b, i).value;
            es != [] && b[i..] == PrintEntries(ItemsOf(es)) && AllReadable(ItemsOf(es))
    decreases |b| - i
  {
    hide EntryAt, PrintEntry, Readable;
    ReadableNone();
    var es := EntriesAt(b, i).value;
    EntryIsPrinted(b, i);
    var j := EntryAt(b, i).value.next;
    var list := ItemsOf(es);
    if b[j] == '}' {
      assert list == [ItemOf(es[0])];
      assert b[i..] == b[i..j] + "}";
    } else {
      EntriesArePrinted(b, j + 1);
      assert list[1..] == ItemsOf(es[1..]);
      assert es[1..] == EntriesAt(b, j + 1).value;
      ReadableSplit(list);
      assert b[i..] == b[i..j] + ("," + b[j + 1..]);
    }
  }

  /**
   What the parser accepts: printed in-range entries, and, with no entries,
   any text that starts with an empty object and ends with a brace.
   */
  lemma AcceptsOnlyPrinted(b: string, es: seq<ProtoEntry>)
    ensures ProtocolBytes(b) == Some(es)
       <==> (es != [] && b == PrintProtocols(ItemsOf(es)) && AllReadable(ItemsOf(es)) && EntriesOf(ItemsOf(es)) == es)
            || (es == [] && |b| >= 2 && b[..2] == "{}" && b[|b| - 1] == '}')
  {
    if es != [] && b == PrintProtocols(ItemsOf(es)) && AllReadable(ItemsOf(es)) && EntriesOf(ItemsOf(es)) == es {
      ProtocolsRoundTrip(ItemsOf(es));
    }
    if ProtocolBytes(b) == Some(es) && b[1] != '}' {
      EntriesArePrinted(b, 1);
      assert b == "{" + b[1..];
      ProtocolsRoundTrip(ItemsOf(es));
    }
    if |b| >= 2 && b[..2] == "{}" {
      assert b[0] == b[..2][0] && b[1] == b[..2][1];
    }
    if |b| >= 2 && b[0] == '{' && b[1] == '}' {
      assert b[..2] == "{}";
    }
  }
}

/**
 Canonical JSON integers (parseJSONInt in stats_single_pass_json.go), and the
 printer strconv.FormatInt they undo. The parser accepts an integer of section
 6 of RFC 8259 without fraction, exponent or minus zero, when its value is
 above the smallest int64.

 The digits are read with a check before each step, which is shown to keep the
 sum inside the unsigned 64-bit range for every text.
 */
module JsonInt {
  import opened PairGroups

  const MAX_INT64: int := 0x7fff_ffff_ffff_ffff
  const TWO63: int := 0x8000_0000_0000_0000
  const TWO64: int := 0x1_0000_0000_0000_0000

  predicate IsDigit(c: char) {
    '0' <= c <= '9'
  }

  function DigitValue(c: char): (d: int)
    requires IsDigit(c)
    ensures 0 <= d <= 9
  {
    c as int - '0' as int
  }

  function DigitChar(d: int): (c: char)
    requires 0 <= d <= 9
    ensures IsDigit(c) && DigitValue(c) == d
    ensures c == '0' <==> d == 0
  {
    ('0' as int + d) as char
  }

  predicate AllDigits(s: string) {
    forall i :: 0 <= i < |s| ==> IsDigit(s[i])
  }

  function Value(s: string): (v: int)
    requires AllDigits(s)
    ensures v >= 0
  {
    if s == "" then 0 else Value(s[..|s| - 1]) * 10 + DigitValue(s[|s| - 1])
  }

  /** The end of the run of digits at i. */
  function DigitsEnd(b: string, i: nat): (e: nat)
    requires i <= |b|
    ensures i <= e <= |b| && AllDigits(b[i..e]) && (e < |b| ==> !IsDigit(b[e]))
    decreases |b| - i
  {
    if i < |b| && IsDigit(b[i]) then
      var e := DigitsEnd(b, i + 1);
      assert b[i..e] == [b[i]] + b[i + 1..e];
      e
    else i
  }

  predicate MoreNumber(b: string, i: nat) {
    i < |b| && (b[i] == '.' || b[i] == 'e' || b[i] == 'E')
  }

  datatype Number = Number(value: int, next: nat)

  /** The canonical integer at b[i..], and where it ends. */
  function NumberAt(b: string, i: nat): (n: Option<Number>)
    requires i <= |b|
    ensures n.Some? ==> i < n.value.next <= |b|
  {
    var neg := i < |b| && b[i] == '-';
    var d := if neg then i + 1 else i;
    var e := DigitsEnd(b, d);
    if e == d || (b[d] == '0' && (neg || e > d + 1)) || MoreNumber(b, e) || Value(b[d..e]) > MAX_INT64 then None
    else Some(Number(if neg then -Value(b[d..e]) else Value(b[d..e]), e))
  }

  /** No prefix of digits is worth more than the whole. */
  lemma {:induction false} PrefixValue(s: string, k: nat)
    requires AllDigits(s) && k <= |s|
    ensures Value(s[..k]) <= Value(s)
  {
    if k < |s| {
      PrefixValue(s[..|s| - 1], k);
      assert s[..|s| - 1][..k] == s[..k];
    } else {
      assert s[..k] == s;
    }
  }

  lemma DigitsEndAt(b: string, d: nat, i: nat)
    requires d <= i <= |b| && AllDigits(b[d..i]) && (i < |b| ==> !IsDigit(b[i]))
    ensures DigitsEnd(b, d) == i
    decreases i - d
  {
    if d < i {
      assert b[d..i][0] == b[d];
      assert b[d + 1..i] == b[d..i][1..];
      DigitsEndAt(b, d + 1, i);
    }
  }

  /** The loop's uint64 never wraps, and it accepts exactly the canonical integers. */
  method ParseJSONInt(b: string, at: nat) returns (v: int, i: nat, ok: bool)
    requires at <= |b|
    ensures ok <==> NumberAt(b, at).Some?
    ensures ok ==> NumberAt(b, at) == Some(Number(v, i)) && -MAX_INT64 <= v <= MAX_INT64
  {
    v, i, ok := 0, at, false;
    var neg := false;
    if i < |b| && b[i] == '-' {
      neg := true;
      i := i + 1;
    }
    if i >= |b| || !IsDigit(b[i]) {
      return;
    }
    ghost var d := i;
    if b[i] == '0' {
      i := i + 1;
      if neg {
        return;
      }
      if i < |b| && (IsDigit(b[i]) || MoreNumber(b, i)) {
        return;
      }
      DigitsEndAt(b, d, i);
      assert b[d..i] == "0";
      ok := true;
      return;
    }
    var u, fits;
    u, i, fits := ReadDigits(b, i);
    if !fits {
      return;
    }
    if MoreNumber(b, i) {
      return;
    }
    if u > MAX_INT64 {
      return;
    }
    v := if neg then -u else u;
    ok := true;
  }

  /** The digit loop of parseJSONInt. */
  method ReadDigits(b: string, d: nat) returns (u: int, i: nat, fits: bool)
    requires d < |b| && IsDigit(b[d])
    ensures fits <==> Value(b[d..DigitsEnd(b, d)]) <= TWO63
    ensures fits ==> i == DigitsEnd(b, d) && u == Value(b[d..i])
  {
    hide Value, DigitsEnd, AllDigits;
    ghost var e := DigitsEnd(b, d);
    u, i, fits := 0, d, false;
    NoDigits(b, d);
    while i < |b| && IsDigit(b[i])
      invariant d <= i <= e && AllDigits(b[d..i])
      invariant u == Value(b[d..i]) <= TWO63
    {
      assert e > i by { InsideDigits(b, d, i); }
      DigitNext(b, d, i);
      var x := DigitValue(b[i]);
      PrefixOfRun(b, d, i + 1, e);
      if u > TWO63 / 10 || (u * 10) % TWO64 > TWO63 - x {
        return;
      }
      u := (u * 10 + x) % TWO64;
      i := i + 1;
    }
    assert i == e by { RunEnds(b, d, i); }
    fits := true;
  }

  lemma NoDigits(b: string, d: nat)
    requires d <= |b|
    ensures AllDigits(b[d..d]) && Value(b[d..d]) == 0
  {
  }

  lemma RunEnds(b: string, d: nat, i: nat)
    requires d <= |b| && d <= i <= DigitsEnd(b, d) && (i < |b| ==> !IsDigit(b[i]))
    ensures i == DigitsEnd(b, d)
  {
    var e := DigitsEnd(b, d);
    forall k | d <= k < e
      ensures IsDigit(b[k])
    {
      assert b[d..e][k - d] == b[k];
    }
  }

  lemma InsideDigits(b: string, d: nat, i: nat)
    requires d <= i < |b| && IsDigit(b[i]) && i <= DigitsEnd(b, d)
    ensures i < DigitsEnd(b, d)
  {
  }

  lemma DigitNext(b: string, d: nat, i: nat)
    requires d <= |b| && d <= i < DigitsEnd(b, d)
    ensures AllDigits(b[d..i]) && AllDigits(b[d..i + 1]) && IsDigit(b[i])
    ensures Value(b[d..i + 1]) == Value(b[d..i]) * 10 + DigitValue(b[i])
  {
    var e := DigitsEnd(b, d);
    assert forall k :: d <= k < e ==> IsDigit(b[k]) by {
      forall k | d <= k < e
        ensures IsDigit(b[k])
      {
        assert b[d..e][k - d] == b[k];
      }
    }
    assert b[d..i + 1][..|b[d..i + 1]| - 1] == b[d..i];
  }

  lemma PrefixOfRun(b: string, d: nat, i: nat, e: nat)
    requires d <= i <= e <= |b| && AllDigits(b[d..e])
    ensures AllDigits(b[d..i]) && Value(b[d..i]) <= Value(b[d..e])
  {
    assert b[d..i] == b[d..e][..i - d];
    PrefixValue(b[d..e], i - d);
  }

  // ---- The printer.

  function FormatNat(n: nat): (s: string)
    ensures s != "" && AllDigits(s)
    ensures s[0] == '0' ==> n == 0
    ensures n == 0 ==> s == "0"
  {
    if n < 10 then [DigitChar(n)] else FormatNat(n / 10) + [DigitChar(n % 10)]
  }

  function FormatInt(n: int): (s: string)
    ensures s != "" && (IsDigit(s[0]) || s[0] == '-')
  {
    if n < 0 then "-" + FormatNat(-n) else FormatNat(n)
  }

  lemma {:induction false} FormatValue(n: nat)
    ensures Value(FormatNat(n)) == n
    ensures n > 0 ==> FormatNat(n)[0] != '0'
  {
    if n >= 10 {
      FormatValue(n / 10);
      assert FormatNat(n)[..|FormatNat(n)| - 1] == FormatNat(n / 10);
    } else {
      assert Value([DigitChar(n)][..0]) == 0;
    }
  }

  /** Digits without a leading zero are what the printer makes of their value. */
  lemma {:induction false} ValueFormats(s: string)
    requires AllDigits(s) && s != "" && (s[0] == '0' ==> s == "0")
    ensures FormatNat(Value(s)) == s
    ensures s[0] != '0' ==> Value(s) > 0
  {
    var front, last := s[..|s| - 1], s[|s| - 1];
    if front == "" {
      assert s == [last];
      assert Value(front) == 0;
      assert DigitChar(DigitValue(last)) == last;
    } else {
      assert front[0] == s[0];
      ValueFormats(front);
      assert Value(s) / 10 == Value(front) && Value(s) % 10 == DigitValue(last);
      assert DigitChar(DigitValue(last)) == last;
      assert s == front + [last];
    }
  }

  /** The parser reads back a printed integer exactly when it is above the smallest int64 and at most the largest. */
  lemma PrintedNumber(b: string, i: nat, n: int)
    requires i + |FormatInt(n)| <= |b| && b[i..i + |FormatInt(n)|] == FormatInt(n)
    requires var e := i + |FormatInt(n)|; e < |b| ==> !IsDigit(b[e]) && !MoreNumber(b, e)
    ensures NumberAt(b, i) == if -MAX_INT64 <= n <= MAX_INT64 then Some(Number(n, i + |FormatInt(n)|)) else None
  {
    var s := FormatInt(n);
    var e := i + |s|;
    var m: nat := if n < 0 then -n else n;
    var d := if n < 0 then i + 1 else i;
    PrintedDigits(b, i, n);
    FormatValue(m);
    hide FormatNat, Value, AllDigits;
    DigitsEndAt(b, d, e);
  }

  /** Where the digits of a printed integer stand. */
  lemma PrintedDigits(b: string, i: nat, n: int)
    requires i + |FormatInt(n)| <= |b| && b[i..i + |FormatInt(n)|] == FormatInt(n)
    ensures var d, e, digits := if n < 0 then i + 1 else i, i + |FormatInt(n)|, FormatNat(if n < 0 then -n else n);
            d < e && b[d..e] == digits && AllDigits(b[d..e]) && b[d] == digits[0] && |digits| == e - d
            && (b[i] == '-' <==> n < 0)
  {
    var e := i + |FormatInt(n)|;
    assert b[i] == b[i..e][0];
    if n < 0 {
      assert b[i + 1..e] == b[i..e][1..];
      assert b[i + 1] == b[i + 1..e][0];
    }
  }

  /** What the parser accepts is what the printer prints. */
  lemma NumberIsPrinted(b: string, i: nat)
    requires i <= |b| && NumberAt(b, i).Some?
    ensures var n := NumberAt(b, i).value;
            b[i..n.next] == FormatInt(n.value) && -MAX_INT64 <= n.value <= MAX_INT64
  {
    var neg := i < |b| && b[i] == '-';
    var d := if neg then i + 1 else i;
    var e := DigitsEnd(b, d);
    assert d < e <= |b|;
    assert b[d..e][0] == b[d];
    if b[d] == '0' {
      assert e == d + 1;
      assert b[d..e] == [b[d]];
    }
    ValueFormats(b[d..e]);
    if neg {
      assert b[i..e] == "-" + b[d..e];
    }
  }
}

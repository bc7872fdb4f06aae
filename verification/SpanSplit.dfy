/**
 The loops that cut a plan into work items (node_pair_parallel.go): closed
 hours apart from the filling hour, closed minutes in chunks, open minutes in
 at most 32 chunks plus one per span, and the two primary-key seeks that drop
 hours and minutes with no rows.
 */
module SpanSplit {
  import opened GoInts
  import opened WindowPlan

  const CLOSED_CHUNK: int := 180
  const OPEN_CHUNK: int := 120
  const MAX_OPEN_ITEMS: int := 32

  /** One parallel read: an hour row range or a chunk of minute rows, closed or open. */
  datatype Piece = Piece(span: Span, hours: bool, open: bool)

  function SpansOf(pieces: seq<Piece>): (spans: seq<Span>)
    ensures |spans| == |pieces|
  {
    if pieces == [] then [] else SpansOf(pieces[..|pieces| - 1]) + [pieces[|pieces| - 1].span]
  }

  lemma {:induction false} SpansOfConcat(a: seq<Piece>, b: seq<Piece>)
    ensures SpansOf(a + b) == SpansOf(a) + SpansOf(b)
  {
    if b == [] {
      assert a + b == a;
    } else {
      SpansOfConcat(a, b[..|b| - 1]);
      assert (a + b)[..|a + b| - 1] == a + b[..|b| - 1];
    }
  }

  lemma HitsSnoc(spans: seq<Span>, s: Span, t: int)
    ensures Hits(spans + [s], t) == Hits(spans, t) + if Holds(s, t) then 1 else 0
  {
    assert (spans + [s])[..|spans + [s]| - 1] == spans;
  }

  ghost predicate SameHits(a: seq<Span>, b: seq<Span>, whole: seq<Span>) {
    forall t :: Hits(a, t) + Hits(b, t) == Hits(whole, t)
  }

  ghost predicate Forward(spans: seq<Span>) {
    forall s :: s in spans ==> s.lo <= s.hi
  }

  /** A closed span is whole hours, all of them below rolledUntil. */
  predicate WholeRolledHours(s: Span, rolledUntil: int) {
    s.lo < s.hi <= rolledUntil && (s.hi - s.lo) % HOUR == 0
  }

  /** What is left open does not start with a whole rolled hour. */
  predicate NoRolledHour(s: Span, rolledUntil: int) {
    s.lo < s.hi && (s.lo + HOUR > s.hi || s.lo + HOUR > rolledUntil)
  }

  ghost predicate StartsASpan(s: Span, spans: seq<Span>) {
    exists p :: p in spans && p.lo == s.lo && s.hi <= p.hi
  }

  ghost predicate EndsASpan(s: Span, spans: seq<Span>) {
    exists p :: p in spans && p.hi == s.hi && p.lo <= s.lo && (s.lo - p.lo) % HOUR == 0
  }

  method SplitClosedHours(spans: seq<Span>, mark: int) returns (closed: seq<Span>, open: seq<Span>)
    ensures mark < 0 ==> closed == [] && open == spans
    ensures SameHits(closed, open, spans)
    ensures forall s :: s in closed ==> WholeRolledHours(s, mark + MINUTE) && StartsASpan(s, spans)
    ensures mark >= 0 ==> forall s :: s in open ==> NoRolledHour(s, mark + MINUTE) && EndsASpan(s, spans)
  {
    if mark < 0 {
      return [], spans;
    }
    var rolledUntil := mark + MINUTE;
    closed, open := [], [];
    var i := 0;
    while i < |spans|
      invariant 0 <= i <= |spans|
      invariant forall t :: Hits(closed, t) + Hits(open, t) == Hits(spans[..i], t)
      invariant forall s :: s in closed ==> WholeRolledHours(s, rolledUntil) && StartsASpan(s, spans)
      invariant forall s :: s in open ==> NoRolledHour(s, rolledUntil) && EndsASpan(s, spans)
    {
      var span := spans[i];
      var cut := RolledCut(span, rolledUntil);
      SplitOne(spans, i, closed, open, cut, rolledUntil);
      hide StartsASpan, EndsASpan, WholeRolledHours, NoRolledHour, Hits;
      if cut > span.lo {
        closed := closed + [Span(span.lo, cut)];
      }
      if cut < span.hi {
        open := open + [Span(cut, span.hi)];
      }
      i := i + 1;
    }
    assert spans[..i] == spans;
  }

  /** One span divided at the cut. */
  lemma SplitOne(spans: seq<Span>, i: nat, closed: seq<Span>, open: seq<Span>, cut: int, rolledUntil: int)
    requires i < |spans|
    requires forall t :: Hits(closed, t) + Hits(open, t) == Hits(spans[..i], t)
    requires var span := spans[i];
             span.lo <= cut && (cut - span.lo) % HOUR == 0 && (cut > span.lo ==> cut <= span.hi && cut <= rolledUntil)
             && (cut + HOUR > span.hi || cut + HOUR > rolledUntil)
    ensures var span := spans[i];
            var closed', open' := if cut > span.lo then closed + [Span(span.lo, cut)] else closed,
                                  if cut < span.hi then open + [Span(cut, span.hi)] else open;
            (forall t :: Hits(closed', t) + Hits(open', t) == Hits(spans[..i + 1], t))
            && (cut > span.lo ==>
                WholeRolledHours(Span(span.lo, cut), rolledUntil) && StartsASpan(Span(span.lo, cut), spans))
            && (cut < span.hi ==> NoRolledHour(Span(cut, span.hi), rolledUntil) && EndsASpan(Span(cut, span.hi), spans))
  {
    var span := spans[i];
    assert span in spans;
    var closed' := if cut > span.lo then closed + [Span(span.lo, cut)] else closed;
    var open' := if cut < span.hi then open + [Span(cut, span.hi)] else open;
    forall t
      ensures Hits(closed', t) + Hits(open', t) == Hits(spans[..i + 1], t)
    {
      hide Hits;
      HitsPrefix(spans, i, t);
      HitsSnoc(closed, Span(span.lo, cut), t);
      HitsSnoc(open, Span(cut, span.hi), t);
    }
  }

  /** The inner loop of SplitClosedHours: step over the whole hours that are rolled. */
  method RolledCut(span: Span, rolledUntil: int) returns (cut: int)
    ensures span.lo <= cut && (cut - span.lo) % HOUR == 0
    ensures cut > span.lo ==> cut <= span.hi && cut <= rolledUntil
    ensures cut + HOUR > span.hi || cut + HOUR > rolledUntil
  {
    cut := span.lo;
    while cut + HOUR <= span.hi && cut + HOUR <= rolledUntil
      invariant span.lo <= cut && (cut - span.lo) % HOUR == 0
      invariant cut > span.lo ==> cut <= span.hi && cut <= rolledUntil
      decreases span.hi - cut
    {
      cut := cut + HOUR;
    }
  }

  /** A chunk of minutes at or below the mark. */
  predicate ClosedChunk(s: Span, rolledUntil: int) {
    s.lo < s.hi <= s.lo + CLOSED_CHUNK && s.hi <= rolledUntil
  }

  predicate AfterMark(s: Span, rolledUntil: int) {
    rolledUntil <= s.lo < s.hi
  }

  method SplitClosedMinutes(spans: seq<Span>, mark: int) returns (closed: seq<Span>, open: seq<Span>)
    requires Forward(spans)
    ensures mark < 0 ==> closed == [] && open == spans
    ensures SameHits(closed, open, spans)
    ensures forall s :: s in closed ==> ClosedChunk(s, mark + MINUTE)
    ensures mark >= 0 ==> forall s :: s in open ==> AfterMark(s, mark + MINUTE)
  {
    if mark < 0 {
      return [], spans;
    }
    var rolledUntil := mark + MINUTE;
    closed, open := [], [];
    var i := 0;
    while i < |spans|
      invariant 0 <= i <= |spans|
      invariant SameHits(closed, open, spans[..i])
      invariant forall s :: s in closed ==> ClosedChunk(s, rolledUntil)
      invariant forall s :: s in open ==> AfterMark(s, rolledUntil)
    {
      var span := spans[i];
      assert span in spans;
      var cut := if span.hi > rolledUntil then rolledUntil else span.hi;
      var chunks := ChunkMinutes(span.lo, cut, rolledUntil);
      var openLo := if cut > span.lo then cut else span.lo;
      SplitAtMark(spans, i, closed, open, chunks, cut, openLo);
      hide SameHits, ClosedChunk;
      closed := closed + chunks;
      if openLo < span.hi {
        open := open + [Span(openLo, span.hi)];
      }
      i := i + 1;
    }
    assert spans[..i] == spans;
  }

  /** The inner loop of SplitClosedMinutes. */
  method ChunkMinutes(from: int, cut: int, rolledUntil: int) returns (chunks: seq<Span>)
    requires cut <= rolledUntil
    ensures forall t :: Hits(chunks, t) == if from <= t < cut then 1 else 0
    ensures forall s :: s in chunks ==> ClosedChunk(s, rolledUntil)
  {
    chunks := [];
    var lo := from;
    while lo < cut
      invariant from <= lo
      invariant forall t :: Hits(chunks, t) == if from <= t < lo && t < cut then 1 else 0
      invariant forall s :: s in chunks ==> ClosedChunk(s, rolledUntil)
      decreases cut - lo
    {
      hide Hits;
      var end := if lo + CLOSED_CHUNK > cut then cut else lo + CLOSED_CHUNK;
      forall t
        ensures Hits(chunks + [Span(lo, end)], t) == if from <= t < lo + CLOSED_CHUNK && t < cut then 1 else 0
      {
        HitsSnoc(chunks, Span(lo, end), t);
      }
      chunks := chunks + [Span(lo, end)];
      lo := lo + CLOSED_CHUNK;
    }
  }

  lemma SplitAtMark(spans: seq<Span>, i: nat, closed: seq<Span>, open: seq<Span>, chunks: seq<Span>, cut: int,
                    openLo: int)
    requires i < |spans| && SameHits(closed, open, spans[..i]) && spans[i].lo <= spans[i].hi && cut <= spans[i].hi
    requires forall t :: Hits(chunks, t) == if spans[i].lo <= t < cut then 1 else 0
    requires openLo == if cut > spans[i].lo then cut else spans[i].lo
    ensures SameHits(closed + chunks, if openLo < spans[i].hi then open + [Span(openLo, spans[i].hi)] else open,
            spans[..i + 1])
  {
    hide Hits;
    var open' := if openLo < spans[i].hi then open + [Span(openLo, spans[i].hi)] else open;
    forall t
      ensures Hits(closed + chunks, t) + Hits(open', t) == Hits(spans[..i + 1], t)
    {
      HitsPrefix(spans, i, t);
      HitsConcat(closed, chunks, t);
      HitsSnoc(open, Span(openLo, spans[i].hi), t);
    }
  }

  function TotalSeconds(spans: seq<Span>): int {
    if spans == [] then 0
    else TotalSeconds(spans[..|spans| - 1]) + spans[|spans| - 1].hi - spans[|spans| - 1].lo
  }

  function OpenChunk(total: int): int {
    if total > OPEN_CHUNK * MAX_OPEN_ITEMS then (total / MAX_OPEN_ITEMS / MINUTE + 1) * MINUTE else OPEN_CHUNK
  }

  lemma {:induction false} TotalNonNegative(spans: seq<Span>)
    requires Forward(spans)
    ensures TotalSeconds(spans) >= 0
  {
    if spans != [] {
      TotalNonNegative(spans[..|spans| - 1]);
      assert spans[|spans| - 1] in spans;
    }
  }

  /** 32 chunks are enough for the seconds of all spans together. */
  lemma ChunkIsWide(total: int)
    requires total >= 0
    ensures OpenChunk(total) > 0 && OpenChunk(total) % MINUTE == 0
    ensures total <= OpenChunk(total) * MAX_OPEN_ITEMS
  {
  }

  lemma FewItems(k: int, chunk: int, total: int)
    requires chunk > 0 && k * chunk <= total <= chunk * MAX_OPEN_ITEMS
    ensures k <= MAX_OPEN_ITEMS
  {
    GapIsAStep(k - MAX_OPEN_ITEMS, chunk);
    assert (k - MAX_OPEN_ITEMS) * chunk == k * chunk - MAX_OPEN_ITEMS * chunk;
  }

  function HourPieces(hours: seq<Span>): (pieces: seq<Piece>)
    ensures |pieces| == |hours|
  {
    seq(|hours|, i requires 0 <= i < |hours| => Piece(hours[i], true, true))
  }

  /** An open chunk of minutes. */
  predicate OpenMinutes(p: Piece, chunk: int) {
    p.open && !p.hours && p.span.lo < p.span.hi <= p.span.lo + chunk
  }

  /** Every filling-hour span is one item; the minutes after the mark are cut into chunks. */
  method OpenSpans(hours: seq<Span>, minutes: seq<Span>) returns (items: seq<Piece>, ghost cut: seq<Piece>)
    requires Forward(minutes)
    ensures items == HourPieces(hours) + cut
    ensures forall p :: p in cut ==> OpenMinutes(p, OpenChunk(TotalSeconds(minutes)))
    ensures forall t :: Hits(SpansOf(cut), t) == Hits(minutes, t)
    ensures |items| <= |hours| + |minutes| + MAX_OPEN_ITEMS
  {
    hide Hits, SpansOf, OpenChunk, OpenMinutes;
    items := HourItems(hours);
    var chunk := ChunkFor(minutes);
    cut := [];
    var m := 0;
    NothingCut(minutes, chunk);
    while m < |minutes|
      invariant 0 <= m <= |minutes|
      invariant items == HourPieces(hours) + cut
      invariant forall p :: p in cut ==> OpenMinutes(p, chunk)
      invariant forall t :: Hits(SpansOf(cut), t) == Hits(minutes[..m], t)
      invariant (|cut| - m) * chunk <= TotalSeconds(minutes[..m])
    {
      assert minutes[m] in minutes;
      var more := CutSpan(minutes[m], chunk);
      CutMore(minutes, m, cut, more, chunk);
      items := items + more;
      cut := cut + more;
      m := m + 1;
    }
    assert minutes[..m] == minutes;
    FewItems(|cut| - |minutes|, chunk, TotalSeconds(minutes));
  }

  lemma NothingCut(minutes: seq<Span>, chunk: int)
    ensures forall t :: Hits(SpansOf([]), t) == Hits(minutes[..0], t)
    ensures 0 * chunk == 0 <= TotalSeconds(minutes[..0])
  {
  }

  lemma CutMore(minutes: seq<Span>, m: nat, cut: seq<Piece>, more: seq<Piece>, chunk: int)
    requires m < |minutes| && chunk > 0
    requires forall t :: Hits(SpansOf(cut), t) == Hits(minutes[..m], t)
    requires forall t :: Hits(SpansOf(more), t) == if Holds(minutes[m], t) then 1 else 0
    requires (|cut| - m) * chunk <= TotalSeconds(minutes[..m])
    requires (|more| - 1) * chunk <= minutes[m].hi - minutes[m].lo
    ensures forall t :: Hits(SpansOf(cut + more), t) == Hits(minutes[..m + 1], t)
    ensures (|cut + more| - (m + 1)) * chunk <= TotalSeconds(minutes[..m + 1])
  {
    forall t
      ensures Hits(SpansOf(cut + more), t) == Hits(minutes[..m + 1], t)
    {
      hide Hits, SpansOf;
      SpansOfConcat(cut, more);
      HitsConcat(SpansOf(cut), SpansOf(more), t);
      HitsPrefix(minutes, m, t);
    }
    assert minutes[..m + 1][..m] == minutes[..m];
    CountsAdd(|cut| - m, |more| - 1, chunk);
  }

  lemma CountsAdd(a: int, b: int, chunk: int)
    ensures (a + b) * chunk == a * chunk + b * chunk
  {
  }

  method HourItems(hours: seq<Span>) returns (items: seq<Piece>)
    ensures items == HourPieces(hours)
  {
    items := [];
    var h := 0;
    while h < |hours|
      invariant 0 <= h <= |hours|
      invariant items == HourPieces(hours)[..h]
    {
      items := items + [Piece(hours[h], true, true)];
      h := h + 1;
    }
  }

  /** The chunk width: two minutes, or wide enough for 32 chunks. */
  method ChunkFor(minutes: seq<Span>) returns (chunk: int)
    requires Forward(minutes)
    ensures chunk == OpenChunk(TotalSeconds(minutes))
    ensures chunk > 0 && TotalSeconds(minutes) <= chunk * MAX_OPEN_ITEMS
  {
    var total := 0;
    var m := 0;
    while m < |minutes|
      invariant 0 <= m <= |minutes|
      invariant total == TotalSeconds(minutes[..m])
    {
      total := total + (minutes[m].hi - minutes[m].lo);
      assert minutes[..m + 1][..m] == minutes[..m];
      m := m + 1;
    }
    assert minutes[..m] == minutes;
    TotalNonNegative(minutes);
    chunk := OPEN_CHUNK;
    if total > chunk * MAX_OPEN_ITEMS {
      chunk := (total / MAX_OPEN_ITEMS / MINUTE + 1) * MINUTE;
    }
    ChunkIsWide(total);
  }

  /** The inner loop of OpenSpans: one minute span in chunks. */
  method CutSpan(span: Span, chunk: int) returns (items: seq<Piece>)
    requires chunk > 0 && span.lo <= span.hi
    ensures forall p :: p in items ==> OpenMinutes(p, chunk)
    ensures forall t :: Hits(SpansOf(items), t) == if Holds(span, t) then 1 else 0
    ensures (|items| - 1) * chunk <= span.hi - span.lo
  {
    items := [];
    var lo := span.lo;
    ghost var last := lo;
    while lo < span.hi
      invariant forall p :: p in items ==> OpenMinutes(p, chunk)
      invariant span.lo <= lo
      invariant forall t :: Hits(SpansOf(items), t) == if span.lo <= t < lo && t < span.hi then 1 else 0
      invariant |items| * chunk == lo - span.lo
      invariant if items == [] then lo == span.lo else last == lo - chunk && last < span.hi
      decreases span.hi - lo
    {
      hide Hits, SpansOf;
      var hi := if lo + chunk > span.hi then span.hi else lo + chunk;
      CutOne(items, span, lo, hi, chunk);
      CountsAdd(|items|, 1, chunk);
      items := items + [Piece(Span(lo, hi), false, true)];
      last := lo;
      lo := lo + chunk;
    }
    CountsAdd(|items|, -1, chunk);
  }

  lemma CutOne(before: seq<Piece>, span: Span, lo: int, hi: int, chunk: int)
    requires span.lo <= lo < span.hi && chunk > 0 && hi == if lo + chunk > span.hi then span.hi else lo + chunk
    requires forall t :: Hits(SpansOf(before), t) == if span.lo <= t < lo && t < span.hi then 1 else 0
    ensures var items := before + [Piece(Span(lo, hi), false, true)];
            forall t :: Hits(SpansOf(items), t) == if span.lo <= t < lo + chunk && t < span.hi then 1 else 0
  {
    var piece := Piece(Span(lo, hi), false, true);
    assert SpansOf([piece]) == [Span(lo, hi)];
    SpansOfConcat(before, [piece]);
    hide Hits, SpansOf;
    forall t
      ensures Hits(SpansOf(before + [piece]), t) == if span.lo <= t < lo + chunk && t < span.hi then 1 else 0
    {
      HitsSnoc(SpansOf(before), Span(lo, hi), t);
    }
  }
}

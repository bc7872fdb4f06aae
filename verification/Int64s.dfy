/** Checked 64-bit addition (addInt64 in stats_single_pass.go). */
module Int64s {
  import opened PairGroups
  import opened GoInts
  import opened JsonInt

  predicate Int64(n: int) {
    -TWO63 <= n < TWO63
  }

  /** Two's complement addition. */
  function Wrap(n: int): (w: int)
    ensures Int64(w)
  {
    var r := n % TWO64;
    if r >= TWO63 then r - TWO64 else r
  }

  function AddInt64(a: int, b: int): Option<int> {
    var c := Wrap(a + b);
    if (c > a) != (b > 0) then None else Some(c)
  }

  /** The comparison catches exactly the sums that do not fit. */
  lemma AddInt64Exact(a: int, b: int)
    requires Int64(a) && Int64(b)
    ensures AddInt64(a, b) == if Int64(a + b) then Some(a + b) else None
  {
  }

  /** Adding up with wrap-around is wrapping the sum. */
  lemma WrapAdds(a: int, b: int)
    ensures Wrap(Wrap(a) + b) == Wrap(a + b)
  {
    var q := if a % TWO64 >= TWO63 then a / TWO64 + 1 else a / TWO64;
    assert Wrap(a) == a - q * TWO64;
    WrapShift(a + b, q);
  }

  lemma WrapShift(n: int, q: int)
    ensures Wrap(n - q * TWO64) == Wrap(n)
  {
    QuotientUnique(n - q * TWO64, TWO64, n / TWO64 - q, n % TWO64);
  }

  lemma WrapFits(n: int)
    ensures Int64(n) ==> Wrap(n) == n
  {
  }
}

/** `math.ceil(count / size)` on non-negative integer counts, as the extractors use it
    to turn a record count into a number of pages. */
module Paging {

  /** The HTTP status of a successful response. */
  const StatusOk: int := 200

  /** A page-count response: its HTTP status and the record count in its body
      (`TotalRecordCount` at Woolworths, `noOfResults` at Coles). */
  datatype CountResponse = CountResponse(status: int, count: nat)

  /** The number of pages of `size` items needed for `n` items. */
  function CeilDiv(n: nat, size: nat): nat
    requires size > 0
  {
    (n + size - 1) / size
  }

  /** `CeilDiv(n, size)` is the least page count whose pages hold all `n` items. */
  lemma CeilDivIsLeastCover(n: nat, size: nat)
    requires size > 0
    ensures CeilDiv(n, size) * size >= n
    ensures CeilDiv(n, size) > 0 ==> (CeilDiv(n, size) - 1) * size < n
    ensures n == 0 <==> CeilDiv(n, size) == 0
  {
    var m := n + size - 1;
    var q := m / size;
    var rem := m % size;
    assert m == q * size + rem && 0 <= rem < size;
    assert q * size >= n;
    if q > 0 {
      assert (q - 1) * size == q * size - size;
    }
  }

  /** Euclidean division has one quotient. */
  lemma DivUnique(x: int, d: int, q: int, r: int)
    requires d > 0 && x == q * d + r && 0 <= r < d
    ensures x / d == q
  {
    var q', r' := x / d, x % d;
    var k := q - q';
    assert k * d == r' - r by {
      assert q * d - q' * d == (q - q') * d;
    }
  }

  /** Every full page beyond the first adds one to the page count. */
  lemma CeilDivStep(n: nat, size: nat)
    requires size > 0 && n > size
    ensures CeilDiv(n, size) == CeilDiv(n - size, size) + 1
  {
    var x := n - 1;
    var q, r := x / size, x % size;
    assert x == q * size + r && 0 <= r < size;
    assert (q + 1) * size == q * size + size;
    DivUnique(x + size, size, q + 1, r);
  }

  /** Up to one page of items fits on one page. */
  lemma CeilDivSmall(n: nat, size: nat)
    requires size > 0 && 0 < n <= size
    ensures CeilDiv(n, size) == 1
  {
    DivUnique(n + size - 1, size, 1, n - 1);
  }
}

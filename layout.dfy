/**
 * Index arithmetic of the packed parameter layout of the Gaussian
 * distribution with an upper-triangular K x K factor.
 *
 * The flat parameter vector holds the K means first, then the K(K+1)/2
 * distinct entries of the factor row by row: row r holds the K - r
 * entries of columns r .. K-1.  Factor entry i (counted from 0 after the
 * means) therefore lies in the row whose segment [RowStart(r), RowStart(r+1))
 * contains i.
 */
module Layout {

  /** Number of distinct entries of an upper-triangular k x k factor. */
  function Entries(k: nat): nat
  {
    k * (k + 1) / 2
  }

  /** Length of the flat parameter vector, as the source computes it. */
  function NumParameters(k: nat): (n: nat)
    ensures n == k + Entries(k)
  {
    assert k * (k + 3) == k * (k + 1) + 2 * k;
    k * (k + 3) / 2
  }

  /** Offset, among the factor entries, of the first entry of row r. */
  function RowStart(k: nat, r: nat): nat
    requires r <= k
  {
    if r == 0 then 0 else RowStart(k, r - 1) + (k - (r - 1))
  }

  lemma {:induction false} RowStartClosedForm(k: nat, r: nat)
    requires r <= k
    ensures 2 * RowStart(k, r) == r * (2 * k - r + 1)
  {
    if r > 0 {
      RowStartClosedForm(k, r - 1);
      assert r * (2 * k - r + 1) == (r - 1) * (2 * k - (r - 1) + 1) + 2 * (k - (r - 1));
    }
  }

  /** The rows together hold exactly the factor entries. */
  lemma RowStartOfLastRow(k: nat)
    ensures RowStart(k, k) == Entries(k)
  {
    RowStartClosedForm(k, k);
  }

  /** No row starts past the last entry. */
  lemma RowStartBounded(k: nat, r: nat)
    requires r <= k
    ensures RowStart(k, r) <= Entries(k)
  {
    RowStartOfLastRow(k);
    if r < k { RowStartIncreasing(k, r, k); }
  }

  /** Row r < k holds k - r >= 1 entries, so the row starts grow strictly. */
  lemma {:induction false} RowStartIncreasing(k: nat, r: nat, s: nat)
    requires r < s <= k
    ensures RowStart(k, r) + (s - r) <= RowStart(k, s)
  {
    if r + 1 < s {
      RowStartIncreasing(k, r, s - 1);
    }
  }

  /**
   * The counters of the row walk over the factor entries while it handles
   * entry i: it is in row `row`, whose entries are [start, limit), and
   * `add` is the length of the next row.
   */
  ghost predicate WalkAt(k: nat, i: nat, row: int, start: int, limit: int, add: int)
  {
    0 <= row < k && start == RowStart(k, row) && limit == RowStart(k, row + 1) &&
    add == k - 1 - row && start <= i <= limit
  }

  /**
   * One step of the walk: when entry i reaches `limit` the walk moves to
   * the next row, which exists; either way the updated counters give the
   * row RowOf(i) and, through start, the column ColOf(i) of entry i.
   */
  lemma WalkStep(k: nat, i: nat, row: int, start: int, limit: int, add: int)
    requires WalkAt(k, i, row, start, limit, add) && i < Entries(k)
    ensures var row', start' := if i == limit then row + 1 else row, if i == limit then i else start;
      var limit', add' := if i == limit then limit + add else limit, if i == limit then add - 1 else add;
      WalkAt(k, i + 1, row', start', limit', add') &&
      RowOf(k, i) == row' && ColOf(k, i) == row' + i - start'
  {
    RowStartOfLastRow(k);
    var row' := if i == limit then row + 1 else row;
    assert row' < k;
    RowOfUnique(k, i, row');
  }

  function RowFrom(k: nat, i: nat, r: nat): (row: nat)
    requires r < k && RowStart(k, r) <= i < Entries(k)
    ensures r <= row < k && RowStart(k, row) <= i < RowStart(k, row + 1)
    decreases k - r
  {
    RowStartOfLastRow(k);
    if i < RowStart(k, r + 1) then r
    else RowFrom(k, i, r + 1)
  }

  /** The factor row that factor entry i belongs to. */
  function RowOf(k: nat, i: nat): (row: nat)
    requires i < Entries(k)
    ensures row < k && RowStart(k, row) <= i < RowStart(k, row + 1)
  {
    RowFrom(k, i, 0)
  }

  /** The factor column that factor entry i is stored in. */
  function ColOf(k: nat, i: nat): (col: nat)
    requires i < Entries(k)
    ensures RowOf(k, i) <= col < k
  {
    RowOf(k, i) + (i - RowStart(k, RowOf(k, i)))
  }

  /** Inverse direction: the factor entry that holds cell (r, c), r <= c. */
  function Index(k: nat, r: nat, c: nat): (i: nat)
    requires r <= c < k
    ensures i < Entries(k)
  {
    RowStartBounded(k, r + 1);
    RowStart(k, r) + (c - r)
  }

  /** An entry lies in exactly one row: the row segments partition the entries. */
  lemma RowOfUnique(k: nat, i: nat, r: nat)
    requires r < k && RowStart(k, r) <= i < RowStart(k, r + 1)
    ensures i < Entries(k) && RowOf(k, i) == r
  {
    RowStartOfLastRow(k);
    if r + 1 < k {
      RowStartIncreasing(k, r + 1, k);
    }
    var q := RowOf(k, i);
    if q < r {
      RowStartIncreasing(k, q, r);
      if q + 1 < r { RowStartIncreasing(k, q + 1, r); }
    } else if q > r {
      RowStartIncreasing(k, r, q);
      if r + 1 < q { RowStartIncreasing(k, r + 1, q); }
    }
  }

  /**
   * Index and (RowOf, ColOf) are inverse to each other: the map from factor
   * entries to cells is a bijection onto {(r, c) : 0 <= r <= c < k}.
   */
  lemma CellOfIndex(k: nat, r: nat, c: nat)
    requires r <= c < k
    ensures RowOf(k, Index(k, r, c)) == r && ColOf(k, Index(k, r, c)) == c
  {
    RowOfUnique(k, Index(k, r, c), r);
  }

  lemma CellBijection(k: nat)
    ensures forall i :: 0 <= i < Entries(k) ==>
      RowOf(k, i) <= ColOf(k, i) < k && Index(k, RowOf(k, i), ColOf(k, i)) == i
    ensures forall r, c :: 0 <= r <= c < k ==>
      Index(k, r, c) < Entries(k) && RowOf(k, Index(k, r, c)) == r && ColOf(k, Index(k, r, c)) == c
    ensures forall i, j ::
      (0 <= i < Entries(k) && 0 <= j < Entries(k) && RowOf(k, i) == RowOf(k, j) && ColOf(k, i) == ColOf(k, j))
      ==> i == j
  {
    forall r, c | 0 <= r <= c < k
      ensures Index(k, r, c) < Entries(k) && RowOf(k, Index(k, r, c)) == r && ColOf(k, Index(k, r, c)) == c
    {
      CellOfIndex(k, r, c);
    }
  }
}

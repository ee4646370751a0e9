/**
 * Offset pagination as the list handlers compute it: `offset = (sayfa - 1) * limit`
 * and `toplamSayfa = Math.ceil(count / limit)` (routes/web.js:95-96,161,
 * routes/admin.js:114-115,150, routes/api.js:24,65), and the window the database
 * returns for LIMIT/OFFSET.
 */
module Pagination {
  import opened Wrappers

  /** Page size of the storefront listings and search (routes/web.js:95,239). */
  const StorePageSize: nat := 12

  /** Page size of the admin lists (routes/admin.js:114,456,539). */
  const AdminPageSize: nat := 20

  function Offset(page: int, size: nat): int
  {
    (page - 1) * size
  }

  /** `Math.ceil(count / size)`. */
  function TotalPages(count: nat, size: nat): (pages: nat)
    requires size > 0
    ensures pages * size >= count
    ensures pages > 0 ==> (pages - 1) * size < count
  {
    (count + size - 1) / size
  }

  /** The rows shown at `offset`: at most `size` rows, none when the offset is past the end. */
  function Window<T>(rows: seq<T>, offset: nat, size: nat): (w: seq<T>)
    ensures |w| <= size
    ensures offset <= |rows| ==> |w| == if offset + size <= |rows| then size else |rows| - offset
    ensures forall i :: 0 <= i < |w| ==> offset + i < |rows| && w[i] == rows[offset + i]
  {
    if offset >= |rows| then []
    else if offset + size <= |rows| then rows[offset..offset + size]
    else rows[offset..]
  }

  /**
   * The page a `sayfa` query parameter selects; a page below 1 gives a negative OFFSET,
   * which the database refuses (`None`).
   */
  function PageOf<T>(rows: seq<T>, page: int, size: nat): (r: Option<seq<T>>)
    ensures r.None? <==> page < 1 && size > 0
    ensures r.Some? ==> |r.value| <= size
    ensures r.Some? ==> forall i :: 0 <= i < |r.value| ==>
      0 <= Offset(page, size) + i < |rows| && r.value[i] == rows[Offset(page, size) + i]
    ensures r.Some? && 0 <= Offset(page, size) <= |rows| ==>
      |r.value| == if Offset(page, size) + size <= |rows| then size else |rows| - Offset(page, size)
    ensures r.Some? && Offset(page, size) > |rows| ==> r.value == []
  {
    var off := Offset(page, size);
    if off < 0 then None else Some(Window(rows, off, size))
  }

  /**
   * The page count is the least number of pages that holds every row: each row, by its
   * position, sits on exactly one page between 1 and the count, at its offset.
   */
  lemma {:induction false} EveryRowOnItsPage(count: nat, size: nat, k: nat)
    requires size > 0 && k < count
    ensures var page := k / size + 1;
      1 <= page <= TotalPages(count, size)
      && Offset(page, size) <= k < Offset(page, size) + size
  {
    var q := k / size;
    assert k == q * size + k % size && 0 <= k % size < size;
    assert Offset(q + 1, size) == q * size;
    assert (q + 1) * size == q * size + size;
    DivAtLeast(count + size - 1, size, q + 1);
  }

  /** A multiple of `size` no larger than `x` bounds `x / size` from below. */
  lemma DivAtLeast(x: nat, size: nat, m: nat)
    requires size > 0 && m * size <= x
    ensures m <= x / size
  {
    var d := x / size;
    assert x == d * size + x % size && x % size < size;
    assert (d + 1) * size == d * size + size;
    if d < m {
      MulMonotone(d + 1, m, size);
    }
  }

  /**
   * Row `k` of the ordered result is shown on page `k / size + 1`, at position
   * `k % size` of that page.
   */
  lemma RowOnItsPage<T>(rows: seq<T>, size: nat, k: nat)
    requires size > 0 && k < |rows|
    ensures var p := PageOf(rows, k / size + 1, size);
      p.Some? && k % size < |p.value| && p.value[k % size] == rows[k]
  {
    EveryRowOnItsPage(|rows|, size, k);
    var off := Offset(k / size + 1, size);
    assert off + k % size == k;
  }

  lemma MulMonotone(a: nat, b: nat, m: nat)
    requires a <= b
    ensures a * m <= b * m
  {
  }

  /** Pages past the last one are empty. */
  lemma {:induction false} PagesPastTheEndAreEmpty<T>(rows: seq<T>, size: nat, page: int)
    requires size > 0 && page > TotalPages(|rows|, size)
    ensures PageOf(rows, page, size) == Some([])
  {
    var pages := TotalPages(|rows|, size);
    assert page - 1 >= pages;
    MulMonotone(pages, page - 1, size);
  }
}

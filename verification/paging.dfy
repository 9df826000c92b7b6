/** The slice of a query result that Spring Data's `findAll(specification, pageable)` returns. */
module Paging {
  /** A page request: zero-based page number and page size. */
  datatype Pageable = Pageable(page: nat, size: nat)

  /** A page: its rows and the number of rows in the whole result. */
  datatype Page<T> = Page(content: seq<T>, totalElements: nat)

  function Min(a: int, b: int): int {
    if a <= b then a else b
  }

  /** Page `p.page` of `all`, cut into pages of `p.size` rows. */
  function PageOf<T>(all: seq<T>, p: Pageable): (r: Page<T>)
    requires p.size > 0
    ensures r.totalElements == |all|
    ensures p.page * p.size + |r.content| <= |all| || r.content == []
    ensures forall i :: 0 <= i < |r.content| ==> r.content[i] == all[p.page * p.size + i]
    ensures p.page * p.size < |all| ==> |r.content| == Min(p.size, |all| - p.page * p.size)
    ensures p.page * p.size >= |all| ==> r.content == []
  {
    var start := p.page * p.size;
    if start >= |all| then Page([], |all|) else Page(all[start .. Min(|all|, start + p.size)], |all|)
  }

  /** Every row of the result appears on exactly the page and at the position its index gives. */
  lemma EveryRowOnItsPage<T>(all: seq<T>, size: nat, j: nat)
    requires size > 0 && j < |all|
    ensures var r := PageOf(all, Pageable(j / size, size));
            j % size < |r.content| && r.content[j % size] == all[j]
  {
    var q, m := j / size, j % size;
    assert q * size + m == j;
    assert q * size <= j;
  }
}

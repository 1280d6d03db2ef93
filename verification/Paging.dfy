/** The loop by which the driver reads any list from the array, page by page. */
module Paging {

  const PAGE_SIZE := 1000

  /** Pages of a list of `n` items: none for an empty one. */
  function PagesTotal(n: nat): nat {
    (n + PAGE_SIZE - 1) / PAGE_SIZE
  }

  /** Enough pages of 1000 for all items, and no page too many. */
  lemma PagesTotalIs(n: nat)
    ensures n <= 1000 * PagesTotal(n) < n + 1000
  {
  }

  function Min(a: nat, b: nat): nat { if a < b then a else b }

  /** Page number `page`, counted from 1; empty beyond the last one. */
  function Page<T>(items: seq<T>, page: nat): seq<T>
    requires page >= 1
  {
    items[Min((page - 1) * PAGE_SIZE, |items|)..Min(page * PAGE_SIZE, |items|)]
  }

  lemma PagesCover(n: nat, page: nat)
    requires page >= 1
    ensures page > PagesTotal(n) ==> n <= page * PAGE_SIZE && (page > 1 ==> n <= (page - 1) * PAGE_SIZE)
    ensures page <= PagesTotal(n) ==> (page - 1) * PAGE_SIZE < n
  {
  }

  /** Reads a list that does not change meanwhile. If every request is answered the result is the list itself, each item
      once and in order, after max(1, pages) requests; if request number k is the first one lost, it is
      the first k - 1 pages. */
  method ReadAll<T>(items: seq<T>, answered: nat -> bool) returns (result: seq<T>, ok: bool, requests: nat)
    ensures ok <==> forall k :: 1 <= k <= (if items == [] then 1 else PagesTotal(|items|)) ==> answered(k)
    ensures ok ==> result == items && requests == (if items == [] then 1 else PagesTotal(|items|))
    ensures !ok ==> requests >= 1 && !answered(requests) && forall k :: 1 <= k < requests ==> answered(k)
    ensures !ok ==> requests >= 1 && result == items[..Min((requests - 1) * PAGE_SIZE, |items|)]
    ensures !ok && requests > 1 ==> result != []
  {
    result := [];
    var totalPages := 1;
    var page := 1;
    PagesCover(|items|, 1);
    while page <= totalPages
      invariant 1 <= page <= totalPages + 1 || (page == 2 && totalPages == 0)
      invariant page == 1 ==> totalPages == 1
      invariant page > 1 ==> totalPages == PagesTotal(|items|)
      invariant result == items[..Min((page - 1) * PAGE_SIZE, |items|)]
      invariant page > 1 && totalPages > 0 ==> result != []
      invariant forall k :: 1 <= k < page ==> answered(k)
      decreases PagesTotal(|items|) + 2 - page
    {
      if !answered(page) {
        return result, false, page;
      }
      PagesCover(|items|, page);
      var response := Page(items, page);
      ghost var lo, hi := Min((page - 1) * PAGE_SIZE, |items|), Min(page * PAGE_SIZE, |items|);
      assert items[..lo] + items[lo..hi] == items[..hi];
      result := result + response;
      if page == 1 {
        totalPages := PagesTotal(|items|);
      }
      page := page + 1;
    }
    PagesCover(|items|, page);
    requests := page - 1;
    ok := true;
    assert items[..|items|] == items;
  }
}

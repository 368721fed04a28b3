/** List paging in the admin controller: clamped inputs, and slices that rebuild the list. */
module Paging {
  import opened Prelude

  function Max(a: int, b: int): int { if a > b then a else b }

  /** `parseInt(...) || fallback`: both a failed parse and zero fall back. */
  function ParsedOr(parsed: Option<int>, fallback: int): int {
    if parsed == None || parsed == Some(0) then fallback else parsed.value
  }

  /** The clamped page number and limit of a request, whatever was sent. */
  function ParsePaging(page: Option<int>, limit: Option<int>): (r: (nat, nat))
    ensures r.0 >= 1 && 1 <= r.1 <= 100
    ensures r.0 == if page == None || page.value < 1 then 1 else page.value
    ensures r.1 == if limit == None || limit.value == 0 then 20
                   else if limit.value < 1 then 1 else if limit.value > 100 then 100 else limit.value
  {
    (Max(1, ParsedOr(page, 1)), Min(100, Max(1, ParsedOr(limit, 20))))
  }

  /** `items.slice(from, to)` for bounds that are not negative. */
  function Slice<T>(items: seq<T>, from: nat, to: nat): seq<T> {
    if from >= |items| || to <= from then [] else items[from..Min(to, |items|)]
  }

  function Page<T>(items: seq<T>, page: nat, limit: nat): seq<T>
    requires page >= 1
  {
    Slice(items, (page - 1) * limit, page * limit)
  }

  /** The ceiling of a quotient, and at least one. */
  function TotalPages(total: nat, limit: nat): nat
    requires limit >= 1
  {
    Max(1, (total + limit - 1) / limit)
  }

  /** Pages 1..n, one after the other. */
  function Pages<T>(items: seq<T>, limit: nat, n: nat): seq<T> {
    if n == 0 then [] else Pages(items, limit, n - 1) + Page(items, n, limit)
  }

  lemma Bounds(total: nat, limit: nat)
    requires limit >= 1
    ensures total <= TotalPages(total, limit) * limit
    ensures total > 0 ==> (TotalPages(total, limit) - 1) * limit < total
  {
    var q, r := (total + limit - 1) / limit, (total + limit - 1) % limit;
    assert total + limit - 1 == q * limit + r;
    assert (q - 1) * limit == q * limit - limit;
  }

  lemma MulMonotone(a: nat, b: nat, limit: nat)
    requires a <= b
    ensures a * limit <= b * limit
  {
  }

  lemma {:induction false} PagesArePrefix<T>(items: seq<T>, limit: nat, n: nat)
    ensures Pages(items, limit, n) == items[..Min(n * limit, |items|)]
  {
    if n > 0 {
      PagesArePrefix(items, limit, n - 1);
      assert n * limit == (n - 1) * limit + limit;
    } else {
      assert n * limit == 0;
    }
  }

  lemma PageLength<T>(items: seq<T>, p: nat, limit: nat)
    requires p >= 1
    ensures |Page(items, p, limit)| == Max(0, Min(limit, |items| - (p - 1) * limit))
  {
    assert p * limit == (p - 1) * limit + limit;
  }

  /** A page is full before the last one, and shows something exactly within totalPages. */
  lemma PagesAreFull<T>(items: seq<T>, p: nat, limit: nat)
    requires limit >= 1 && p >= 1
    ensures p < TotalPages(|items|, limit) ==> |Page(items, p, limit)| == limit
    ensures Page(items, p, limit) != [] <==> items != [] && p <= TotalPages(|items|, limit)
  {
    var last := TotalPages(|items|, limit);
    Bounds(|items|, limit);
    PageLength(items, p, limit);
    assert p * limit == (p - 1) * limit + limit;
    if p < last {
      MulMonotone(p, last - 1, limit);
    } else if p > last {
      MulMonotone(last, p - 1, limit);
    }
  }

  /**
   For every list and limit: pages 1..totalPages rebuild the list exactly, every
   page but the last is full, and a page shows something exactly when the list
   is not empty and the page is within totalPages.
   */
  lemma PagesRebuildTheList<T>(items: seq<T>, limit: nat)
    requires limit >= 1
    ensures var last := TotalPages(|items|, limit);
            && last >= 1
            && Pages(items, limit, last) == items
            && (forall p: nat | 1 <= p < last :: |Page(items, p, limit)| == limit)
            && (forall p: nat | p >= 1 :: Page(items, p, limit) != [] <==> items != [] && p <= last)
  {
    var last := TotalPages(|items|, limit);
    Bounds(|items|, limit);
    PagesArePrefix(items, limit, last);
    forall p: nat | p >= 1
      ensures (p < last ==> |Page(items, p, limit)| == limit)
        && (Page(items, p, limit) != [] <==> items != [] && p <= last)
    {
      PagesAreFull(items, p, limit);
    }
  }
}

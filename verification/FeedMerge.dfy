/**
 The merged buyer feed: the newest `limit` rows of each source, concatenated,
 sorted by creation time (newest first, stably) and cut to `limit`, against the
 same merge over the complete tables.
 */
module FeedMerge {

  datatype Source = ExpertReport | OwnerListing | ReporterPost
  datatype Item = Item(source: Source, id: nat, createdAt: int)

  /** Newest first. */
  ghost predicate Sorted(xs: seq<Item>) {
    forall i, j | 0 <= i < j < |xs| :: xs[i].createdAt >= xs[j].createdAt
  }

  /** The items of one creation time, in order. */
  function At(xs: seq<Item>, t: int): seq<Item> {
    if xs == [] then []
    else if xs[0].createdAt == t then [xs[0]] + At(xs[1..], t)
    else At(xs[1..], t)
  }

  /** `ys` is `xs` sorted stably: newest first, and items of equal time keep their order. */
  ghost predicate IsStableSort(xs: seq<Item>, ys: seq<Item>) {
    Sorted(ys) && forall t :: At(ys, t) == At(xs, t)
  }

  /** `slice(0, n)`. */
  function Take(xs: seq<Item>, n: nat): seq<Item> {
    if |xs| <= n then xs else xs[..n]
  }

  // ------------------------------------------------------ one stable sort exists

  /** Insert behind everything at least as new. */
  function Insert(sorted: seq<Item>, x: Item): (r: seq<Item>)
    ensures |r| == |sorted| + 1
  {
    if sorted == [] || sorted[0].createdAt < x.createdAt then [x] + sorted
    else [sorted[0]] + Insert(sorted[1..], x)
  }

  function StableSort(xs: seq<Item>): (r: seq<Item>)
    ensures |r| == |xs|
  {
    if xs == [] then [] else Insert(StableSort(xs[..|xs| - 1]), xs[|xs| - 1])
  }

  lemma {:induction false} AtConcat(a: seq<Item>, b: seq<Item>, t: int)
    ensures At(a + b, t) == At(a, t) + At(b, t)
  {
    if a == [] {
      assert a + b == b;
    } else {
      assert (a + b)[1..] == a[1..] + b;
      AtConcat(a[1..], b, t);
    }
  }

  lemma {:induction false} AtOlder(xs: seq<Item>, t: int)
    requires forall x | x in xs :: x.createdAt < t
    ensures At(xs, t) == []
  {
    if xs != [] {
      AtOlder(xs[1..], t);
    }
  }

  lemma {:induction false} InsertMembers(sorted: seq<Item>, x: Item)
    ensures forall y :: y in Insert(sorted, x) <==> y in sorted || y == x
  {
    if sorted != [] && sorted[0].createdAt >= x.createdAt {
      InsertMembers(sorted[1..], x);
      assert sorted == [sorted[0]] + sorted[1..];
    }
  }

  lemma {:induction false} InsertSorts(sorted: seq<Item>, x: Item, t: int)
    requires Sorted(sorted)
    ensures Sorted(Insert(sorted, x)) && At(Insert(sorted, x), t) == At(sorted, t) + At([x], t)
  {
    if sorted == [] {
    } else if sorted[0].createdAt < x.createdAt {
      AtConcat([x], sorted, t);
      if t == x.createdAt {
        assert forall y | y in sorted :: y.createdAt <= sorted[0].createdAt;
        AtOlder(sorted, t);
      }
    } else {
      InsertSorts(sorted[1..], x, t);
      InsertMembers(sorted[1..], x);
      AtConcat([sorted[0]], sorted[1..], t);
      AtConcat([sorted[0]], Insert(sorted[1..], x), t);
    }
  }

  lemma {:induction false} StableSortSorts(xs: seq<Item>)
    ensures IsStableSort(xs, StableSort(xs))
  {
    if xs != [] {
      var init, x := xs[..|xs| - 1], xs[|xs| - 1];
      StableSortSorts(init);
      forall t ensures At(StableSort(xs), t) == At(xs, t) {
        InsertSorts(StableSort(init), x, t);
        AtConcat(init, [x], t);
        assert init + [x] == xs;
      }
      InsertSorts(StableSort(init), x, 0);
    }
  }

  lemma {:induction false} AtHead(xs: seq<Item>, t: int)
    requires At(xs, t) != []
    ensures exists x :: x in xs && x.createdAt == t
  {
    if xs[0].createdAt != t {
      AtHead(xs[1..], t);
    }
  }

  lemma HeadIsAt(xs: seq<Item>)
    requires xs != []
    ensures exists t :: At(xs, t) != []
  {
    assert At(xs, xs[0].createdAt)[0] == xs[0];
  }

  /** A stable sort has one result, whatever the algorithm. */
  lemma {:induction false} StableSortUnique(ys: seq<Item>, zs: seq<Item>)
    requires Sorted(ys) && Sorted(zs) && forall t :: At(ys, t) == At(zs, t)
    ensures ys == zs
  {
    if ys == [] {
      if zs != [] {
        HeadIsAt(zs);
      }
    } else {
      var t := ys[0].createdAt;
      assert At(zs, t) == At(ys, t) != [];
      AtHead(zs, t);
      assert At(ys, zs[0].createdAt) == At(zs, zs[0].createdAt) != [];
      AtHead(ys, zs[0].createdAt);
      assert zs[0].createdAt == t;
      assert At(ys, t)[0] == ys[0] && At(zs, t)[0] == zs[0];
      forall u ensures At(ys[1..], u) == At(zs[1..], u) {
        assert At(ys, u) == At(zs, u);
        if u == t {
          assert At(ys, u)[1..] == At(ys[1..], u) && At(zs, u)[1..] == At(zs[1..], u);
        }
      }
      StableSortUnique(ys[1..], zs[1..]);
    }
  }

  // ------------------------------------------------- only the newest rows matter

  lemma {:induction false} TakeInsert(xs: seq<Item>, x: Item, n: nat)
    ensures Take(Insert(xs, x), n) == Take(Insert(Take(xs, n), x), n)
  {
    if xs != [] && xs[0].createdAt >= x.createdAt && n > 0 {
      TakeInsert(xs[1..], x, n - 1);
      assert Take(xs, n)[1..] == Take(xs[1..], n - 1);
      assert Take(Insert(xs, x), n) == [xs[0]] + Take(Insert(xs[1..], x), n - 1);
      assert Take(Insert(Take(xs, n), x), n) == [xs[0]] + Take(Insert(Take(xs[1..], n - 1), x), n - 1);
    }
  }

  /** An item behind n items at least as new does not reach the first n. */
  lemma {:induction false} InsertBeyond(sorted: seq<Item>, x: Item, n: nat)
    requires n <= |sorted| && forall i | 0 <= i < n :: sorted[i].createdAt >= x.createdAt
    ensures Take(Insert(sorted, x), n) == Take(sorted, n)
  {
    if n > 0 {
      InsertBeyond(sorted[1..], x, n - 1);
      assert Take(Insert(sorted, x), n) == [sorted[0]] + Take(Insert(sorted[1..], x), n - 1);
      assert Take(sorted, n) == [sorted[0]] + Take(sorted[1..], n - 1);
    } else {
      assert Take(Insert(sorted, x), 0) == [] == Take(sorted, 0);
    }
  }

  /** How many items are at least as new as t. */
  function CountNewer(xs: seq<Item>, t: int): (c: nat)
    ensures c <= |xs|
  {
    if xs == [] then 0 else (if xs[0].createdAt >= t then 1 else 0) + CountNewer(xs[1..], t)
  }

  lemma {:induction false} CountInsert(xs: seq<Item>, x: Item, t: int)
    ensures CountNewer(Insert(xs, x), t) == CountNewer(xs, t) + if x.createdAt >= t then 1 else 0
  {
    if xs != [] && xs[0].createdAt >= x.createdAt {
      CountInsert(xs[1..], x, t);
    }
  }

  lemma {:induction false} CountSnoc(xs: seq<Item>, x: Item, t: int)
    ensures CountNewer(xs + [x], t) == CountNewer(xs, t) + if x.createdAt >= t then 1 else 0
  {
    if xs != [] {
      assert (xs + [x])[1..] == xs[1..] + [x];
      CountSnoc(xs[1..], x, t);
    }
  }

  lemma {:induction false} CountSorted(xs: seq<Item>, t: int)
    ensures CountNewer(StableSort(xs), t) == CountNewer(xs, t)
  {
    if xs != [] {
      CountSorted(xs[..|xs| - 1], t);
      CountInsert(StableSort(xs[..|xs| - 1]), xs[|xs| - 1], t);
      CountSnoc(xs[..|xs| - 1], xs[|xs| - 1], t);
      assert xs[..|xs| - 1] + [xs[|xs| - 1]] == xs;
    }
  }

  lemma {:induction false} CountedComeFirst(sorted: seq<Item>, t: int)
    requires Sorted(sorted)
    ensures forall i | 0 <= i < CountNewer(sorted, t) :: sorted[i].createdAt >= t
  {
    if sorted != [] {
      CountedComeFirst(sorted[1..], t);
      if sorted[0].createdAt < t && CountNewer(sorted[1..], t) > 0 {
        assert sorted[1..][0].createdAt >= t;
      }
    }
  }

  lemma DropLast(before: seq<Item>, x: Item, n: nat)
    requires CountNewer(before, x.createdAt) >= n
    ensures Take(StableSort(before + [x]), n) == Take(StableSort(before), n)
  {
    var sorted := StableSort(before);
    StableSortSorts(before);
    CountSorted(before, x.createdAt);
    CountedComeFirst(sorted, x.createdAt);
    InsertBeyond(sorted, x, n);
    assert (before + [x])[..|before|] == before;
  }

  /** Dropping an item that n earlier items are at least as new as changes nothing in the first n. */
  lemma {:induction false} DropOne(before: seq<Item>, x: Item, behind: seq<Item>, n: nat)
    requires CountNewer(before, x.createdAt) >= n
    ensures Take(StableSort(before + [x] + behind), n) == Take(StableSort(before + behind), n)
    decreases |behind|
  {
    if behind == [] {
      DropLast(before, x, n);
      assert before + [x] + behind == before + [x] && before + behind == before;
    } else {
      var init, y := behind[..|behind| - 1], behind[|behind| - 1];
      DropOne(before, x, init, n);
      var long, short := before + [x] + init, before + init;
      assert (before + [x] + behind)[..|long|] == long && (before + behind)[..|short|] == short;
      TakeInsert(StableSort(long), y, n);
      TakeInsert(StableSort(short), y, n);
    }
  }

  lemma {:induction false} CountAppend(a: seq<Item>, b: seq<Item>, t: int)
    ensures CountNewer(a + b, t) == CountNewer(a, t) + CountNewer(b, t)
  {
    if a == [] {
      assert a + b == b;
    } else {
      assert (a + b)[1..] == a[1..] + b;
      CountAppend(a[1..], b, t);
    }
  }

  lemma {:induction false} CountAll(xs: seq<Item>, t: int)
    requires forall x | x in xs :: x.createdAt >= t
    ensures CountNewer(xs, t) == |xs|
  {
    if xs != [] {
      CountAll(xs[1..], t);
    }
  }

  /** Cutting one table to its newest n rows changes nothing in the first n of the merge. */
  lemma {:induction false} CutOneTable(before: seq<Item>, table: seq<Item>, behind: seq<Item>, n: nat)
    requires Sorted(table)
    ensures Take(StableSort(before + table + behind), n) == Take(StableSort(before + Take(table, n) + behind), n)
    decreases |table|
  {
    if |table| > n {
      var init, x := table[..|table| - 1], table[|table| - 1];
      CountAll(init, x.createdAt);
      CountAppend(before, init, x.createdAt);
      DropOne(before + init, x, behind, n);
      assert table == init + [x];
      assert before + table == before + init + [x];
      CutOneTable(before, init, behind, n);
      assert Take(init, n) == Take(table, n);
    }
  }

  lemma CutAllTables(a: seq<Item>, b: seq<Item>, c: seq<Item>, n: nat)
    requires Sorted(a) && Sorted(b) && Sorted(c)
    ensures Take(StableSort(a + b + c), n) == Take(StableSort(Take(a, n) + Take(b, n) + Take(c, n)), n)
  {
    CutLast(a + b, c, n);
    CutOneTable(a, b, Take(c, n), n);
    CutFirst(a, Take(b, n), Take(c, n), n);
  }

  lemma CutLast(before: seq<Item>, table: seq<Item>, n: nat)
    requires Sorted(table)
    ensures Take(StableSort(before + table), n) == Take(StableSort(before + Take(table, n)), n)
  {
    CutOneTable(before, table, [], n);
    assert before + table + [] == before + table && before + Take(table, n) + [] == before + Take(table, n);
  }

  lemma CutFirst(table: seq<Item>, b: seq<Item>, c: seq<Item>, n: nat)
    requires Sorted(table)
    ensures Take(StableSort(table + b + c), n) == Take(StableSort(Take(table, n) + b + c), n)
  {
    CutOneTable([], table, b + c, n);
    Regroup(table, b, c);
    Regroup(Take(table, n), b, c);
  }

  lemma Regroup(a: seq<Item>, b: seq<Item>, c: seq<Item>)
    ensures [] + a + (b + c) == a + b + c
  {
  }

  lemma StableSortIs(xs: seq<Item>, ys: seq<Item>)
    requires IsStableSort(xs, ys)
    ensures ys == StableSort(xs)
  {
    StableSortSorts(xs);
    forall t ensures At(ys, t) == At(StableSort(xs), t) {
    }
    StableSortUnique(ys, StableSort(xs));
  }

  /**
   The feed is the first page of the full merge: with each table in its query's
   order (newest first), any stable sort of the three limited fetches agrees
   with any stable sort of the three complete tables on the first `limit` items,
   ties included.
   */
  lemma FeedIsFirstPage(listings: seq<Item>, properties: seq<Item>, posts: seq<Item>, limit: nat,
                        fetched: seq<Item>, full: seq<Item>)
    requires Sorted(listings) && Sorted(properties) && Sorted(posts)
    requires IsStableSort(Take(listings, limit) + Take(properties, limit) + Take(posts, limit), fetched)
    requires IsStableSort(listings + properties + posts, full)
    ensures Take(fetched, limit) == Take(full, limit)
  {
    StableSortIs(Take(listings, limit) + Take(properties, limit) + Take(posts, limit), fetched);
    StableSortIs(listings + properties + posts, full);
    CutAllTables(listings, properties, posts, limit);
  }
}

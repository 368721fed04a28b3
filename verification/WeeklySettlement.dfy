/**
 Settlement history by week. Dates are day numbers in one time zone, day 0 being
 a Sunday; amounts are whole paise.
 */
module WeeklySettlement {
  import opened Prelude

  datatype Purchase = Purchase(sellerCut: nat, settledAt: Option<int>, createdAt: int)
  datatype Bucket = Bucket(amount: nat, transactions: nat)
  datatype Settlement = Settlement(weekOf: int, amount: nat, transactions: nat)

  /** `getDay()`: 0 for Sunday to 6 for Saturday. */
  function DayOfWeek(day: int): (d: nat)
    ensures d < 7
  {
    day % 7
  }

  /** `setDate(getDate() - getDay() + 1)`. */
  function WeekKey(day: int): int {
    day - DayOfWeek(day) + 1
  }

  /** The day the payout counts for; rows settled before that was recorded use their creation day. */
  function SettledDay(p: Purchase): int {
    p.settledAt.GetOr(p.createdAt)
  }

  // ------------------------------------------------------------------- calendar

  /**
   Keys are Mondays from 5 days before (Saturday) to 1 day after (Sunday) the
   date, and two dates share a key exactly when they lie in the same Sunday to
   Saturday week.
   */
  lemma WeekKeyIsMonday(a: int, b: int)
    ensures DayOfWeek(WeekKey(a)) == 1
    ensures a - 5 <= WeekKey(a) <= a + 1
    ensures WeekKey(a) == WeekKey(b) <==> SameSundayWeek(a, b)
  {
    assert a == 7 * (a / 7) + a % 7 && b == 7 * (b / 7) + b % 7;
    assert WeekKey(a) == 7 * (a / 7) + 1 && WeekKey(b) == 7 * (b / 7) + 1;
    assert InSundayWeek(a, a / 7) && InSundayWeek(b, b / 7);
    if SameSundayWeek(a, b) {
      var w :| InSundayWeek(a, w) && InSundayWeek(b, w);
      assert a / 7 == w == b / 7;
    }
  }

  /** Some Sunday starts the seven days that both dates lie in. */
  ghost predicate SameSundayWeek(a: int, b: int) {
    exists w :: InSundayWeek(a, w) && InSundayWeek(b, w)
  }

  predicate InSundayWeek(day: int, w: int) {
    7 * w <= day < 7 * w + 7
  }

  /** `weekStart` of the earnings summary: it lies in the future exactly on Sundays. */
  lemma WeekStartsTomorrowExactlyOnSunday(now: int)
    ensures WeekKey(now) > now <==> DayOfWeek(now) == 0
    ensures DayOfWeek(now) == 0 ==> WeekKey(now) == now + 1
  {
  }

  /** `(8 - getDay()) % 7 || 7`. */
  function DaysUntilMonday(now: int): nat {
    var d := (8 - DayOfWeek(now)) % 7;
    if d == 0 then 7 else d
  }

  /** The next payout falls on the first Monday strictly after today. */
  lemma NextPayoutIsNextMonday(now: int, day: int)
    ensures DayOfWeek(now + DaysUntilMonday(now)) == 1
    ensures 1 <= DaysUntilMonday(now) <= 7
    ensures now < day < now + DaysUntilMonday(now) ==> DayOfWeek(day) != 1
  {
    assert now == 7 * (now / 7) + now % 7;
    assert day == 7 * (day / 7) + day % 7;
  }

  // ------------------------------------------------------------------- grouping

  /** Amount and number of the purchases whose week key is `key`. */
  function InWeek(ps: seq<Purchase>, key: int): Bucket {
    if ps == [] then Bucket(0, 0)
    else
      var b, p := InWeek(ps[..|ps| - 1], key), ps[|ps| - 1];
      if WeekKey(SettledDay(p)) == key then Bucket(b.amount + p.sellerCut, b.transactions + 1) else b
  }

  function KeysOf(ps: seq<Purchase>): set<int> {
    set p | p in ps :: WeekKey(SettledDay(p))
  }

  function TotalAmount(ps: seq<Purchase>): nat {
    if ps == [] then 0 else TotalAmount(ps[..|ps| - 1]) + ps[|ps| - 1].sellerCut
  }

  function SumAmounts(ss: seq<Settlement>): nat {
    if ss == [] then 0 else SumAmounts(ss[..|ss| - 1]) + ss[|ss| - 1].amount
  }

  function SumTransactions(ss: seq<Settlement>): nat {
    if ss == [] then 0 else SumTransactions(ss[..|ss| - 1]) + ss[|ss| - 1].transactions
  }

  ghost predicate Descending(ss: seq<Settlement>) {
    forall i, j | 0 <= i < j < |ss| :: ss[i].weekOf > ss[j].weekOf
  }

  /** The settlement history of some purchases: one entry per week that has any, latest first. */
  ghost predicate IsHistory(ps: seq<Purchase>, ss: seq<Settlement>) {
    && Descending(ss)
    && (forall s | s in ss :: s.weekOf in KeysOf(ps) && Bucket(s.amount, s.transactions) == InWeek(ps, s.weekOf))
    && (forall key | key in KeysOf(ps) :: exists s :: s in ss && s.weekOf == key)
  }

  function InsertByWeek(ss: seq<Settlement>, s: Settlement): seq<Settlement> {
    if ss == [] || ss[0].weekOf < s.weekOf then [s] + ss else [ss[0]] + InsertByWeek(ss[1..], s)
  }

  lemma {:induction false} InsertKeepsDescending(ss: seq<Settlement>, s: Settlement)
    requires Descending(ss) && forall x | x in ss :: x.weekOf != s.weekOf
    ensures Descending(InsertByWeek(ss, s))
    ensures forall x :: x in InsertByWeek(ss, s) <==> x in ss || x == s
  {
    if ss != [] && ss[0].weekOf >= s.weekOf {
      var tail := InsertByWeek(ss[1..], s);
      InsertKeepsDescending(ss[1..], s);
      assert ss == [ss[0]] + ss[1..];
      forall x | x in tail ensures ss[0].weekOf > x.weekOf {
        assert x == s || x in ss[1..];
      }
      ConsDescends(ss[0], tail);
    } else {
      ConsDescends(s, ss);
    }
  }

  lemma ConsDescends(s: Settlement, ss: seq<Settlement>)
    requires Descending(ss) && (ss == [] || s.weekOf > ss[0].weekOf)
    ensures Descending([s] + ss)
  {
  }

  lemma {:induction false} KeysHavePurchases(ps: seq<Purchase>, key: int)
    ensures key in KeysOf(ps) <==> InWeek(ps, key).transactions > 0
    ensures key !in KeysOf(ps) ==> InWeek(ps, key) == Bucket(0, 0)
  {
    if ps != [] {
      KeysHavePurchases(ps[..|ps| - 1], key);
      assert ps == ps[..|ps| - 1] + [ps[|ps| - 1]];
    }
  }

  /** The weekly map holds exactly the weeks of these purchases, and its keys in the order they came. */
  ghost predicate Grouped(ps: seq<Purchase>, weekly: map<int, Bucket>, order: seq<int>) {
    && (forall key :: key in weekly <==> key in order)
    && (forall i, j | 0 <= i < j < |order| :: order[i] != order[j])
    && (forall key | key in weekly :: weekly[key] == InWeek(ps, key))
    && (forall key :: key in weekly <==> key in KeysOf(ps))
  }

  /** One turn of the grouping loop: a new week starts at zero, then the purchase is added. */
  lemma GroupOneMore(ps: seq<Purchase>, p: Purchase, weekly: map<int, Bucket>, order: seq<int>)
    requires Grouped(ps, weekly, order)
    ensures var key := WeekKey(SettledDay(p));
            var b := if key in weekly then weekly[key] else Bucket(0, 0);
            Grouped(ps + [p], weekly[key := Bucket(b.amount + p.sellerCut, b.transactions + 1)],
                    if key in weekly then order else order + [key])
  {
    var key := WeekKey(SettledDay(p));
    assert (ps + [p])[..|ps|] == ps;
    KeysHavePurchases(ps, key);
    forall k ensures k in KeysOf(ps + [p]) <==> k in KeysOf(ps) || k == key {
      if k in KeysOf(ps) {
        var q :| q in ps && WeekKey(SettledDay(q)) == k;
        assert q in ps + [p];
      }
      assert p in ps + [p];
    }
  }

  /** The weekly map and its keys in insertion order after the first n purchases. */
  function GroupUpTo(ps: seq<Purchase>, n: nat): (map<int, Bucket>, seq<int>)
    requires n <= |ps|
  {
    if n == 0 then (map[], [])
    else
      var (weekly, order) := GroupUpTo(ps, n - 1);
      var key := WeekKey(SettledDay(ps[n - 1]));
      var b := if key in weekly then weekly[key] else Bucket(0, 0);
      (weekly[key := Bucket(b.amount + ps[n - 1].sellerCut, b.transactions + 1)],
       if key in weekly then order else order + [key])
  }

  lemma {:induction false} GroupUpToGroups(ps: seq<Purchase>, n: nat)
    requires n <= |ps|
    ensures Grouped(ps[..n], GroupUpTo(ps, n).0, GroupUpTo(ps, n).1)
  {
    if n > 0 {
      GroupUpToGroups(ps, n - 1);
      assert ps[..n] == ps[..n - 1] + [ps[n - 1]];
      GroupOneMore(ps[..n - 1], ps[n - 1], GroupUpTo(ps, n - 1).0, GroupUpTo(ps, n - 1).1);
    }
  }

  /** The grouping loop fills the weekly map; the entries are then sorted by week, latest first. */
  method GetSettlements(settled: seq<Purchase>) returns (settlements: seq<Settlement>)
    ensures IsHistory(settled, settlements)
  {
    var weekly: map<int, Bucket> := map[];
    var order: seq<int> := [];
    for n := 0 to |settled|
      invariant weekly == GroupUpTo(settled, n).0 && order == GroupUpTo(settled, n).1
    {
      var key := WeekKey(SettledDay(settled[n]));
      if key !in weekly {
        weekly := weekly[key := Bucket(0, 0)];
        order := order + [key];
      }
      weekly := weekly[key := Bucket(weekly[key].amount + settled[n].sellerCut, weekly[key].transactions + 1)];
      assert weekly == GroupUpTo(settled, n + 1).0;
    }
    GroupUpToGroups(settled, |settled|);
    assert settled[..|settled|] == settled;
    settlements := SortedEntries(weekly, order);
    EntriesAreHistory(settled, weekly, order, settlements);
  }

  lemma EntriesAreHistory(ps: seq<Purchase>, weekly: map<int, Bucket>, order: seq<int>, ss: seq<Settlement>)
    requires Grouped(ps, weekly, order) && Descending(ss)
    requires forall s :: s in ss <==> s.weekOf in weekly && s == EntryOf(weekly, s.weekOf)
    ensures IsHistory(ps, ss)
  {
    forall key | key in KeysOf(ps) ensures exists s :: s in ss && s.weekOf == key {
      assert EntryOf(weekly, key) in ss;
    }
  }

  /** The map's entries as settlements, latest week first. */
  method SortedEntries(weekly: map<int, Bucket>, order: seq<int>) returns (settlements: seq<Settlement>)
    requires forall key :: key in weekly <==> key in order
    requires forall i, j | 0 <= i < j < |order| :: order[i] != order[j]
    ensures Descending(settlements)
    ensures forall s :: s in settlements <==> s.weekOf in weekly && s == EntryOf(weekly, s.weekOf)
  {
    settlements := [];
    for n := 0 to |order|
      invariant Descending(settlements)
      invariant forall s :: s in settlements <==> s.weekOf in order[..n] && s == EntryOf(weekly, s.weekOf)
    {
      var s := EntryOf(weekly, order[n]);
      InsertKeepsDescending(settlements, s);
      settlements := InsertByWeek(settlements, s);
      assert order[..n + 1] == order[..n] + [order[n]];
    }
    assert order[..|order|] == order;
  }

  function EntryOf(weekly: map<int, Bucket>, key: int): Settlement {
    if key in weekly then Settlement(key, weekly[key].amount, weekly[key].transactions) else Settlement(key, 0, 0)
  }

  // ---------------------------------------------------------------- conservation

  /** What is left of the entries once one week is taken out of the purchases. */
  function OutsideWeek(ps: seq<Purchase>, key: int): seq<Purchase> {
    if ps == [] then []
    else
      var rest := OutsideWeek(ps[..|ps| - 1], key);
      if WeekKey(SettledDay(ps[|ps| - 1])) == key then rest else rest + [ps[|ps| - 1]]
  }

  lemma {:induction false} SplitOffWeek(ps: seq<Purchase>, key: int, other: int)
    ensures TotalAmount(ps) == InWeek(ps, key).amount + TotalAmount(OutsideWeek(ps, key))
    ensures |ps| == InWeek(ps, key).transactions + |OutsideWeek(ps, key)|
    ensures InWeek(OutsideWeek(ps, key), other) == if other == key then Bucket(0, 0) else InWeek(ps, other)
  {
    if ps != [] {
      var init, p, rest := ps[..|ps| - 1], ps[|ps| - 1], OutsideWeek(ps[..|ps| - 1], key);
      SplitOffWeek(init, key, other);
      if WeekKey(SettledDay(p)) != key {
        assert (rest + [p])[..|rest|] == rest;
      }
    }
  }

  /**
   Nothing is lost or counted twice: the buckets' amounts and counts sum to the
   totals over all settled purchases.
   */
  lemma {:induction false} HistoryConserves(ps: seq<Purchase>, ss: seq<Settlement>)
    requires IsHistory(ps, ss)
    ensures SumAmounts(ss) == TotalAmount(ps) && SumTransactions(ss) == |ps|
    decreases |ss|
  {
    if ss == [] {
      if ps != [] {
        PurchasesHaveKeys(ps);
      }
    } else {
      HistoryWithoutLast(ps, ss);
      LastBucketTakesItsWeek(ps, ss);
      HistoryConserves(OutsideWeek(ps, ss[|ss| - 1].weekOf), ss[..|ss| - 1]);
    }
  }

  lemma LastBucketTakesItsWeek(ps: seq<Purchase>, ss: seq<Settlement>)
    requires ss != [] && IsHistory(ps, ss)
    ensures var last := ss[|ss| - 1];
            && TotalAmount(ps) == last.amount + TotalAmount(OutsideWeek(ps, last.weekOf))
            && |ps| == last.transactions + |OutsideWeek(ps, last.weekOf)|
  {
    var last := ss[|ss| - 1];
    assert last in ss;
    SplitOffWeek(ps, last.weekOf, last.weekOf);
  }

  lemma PurchasesHaveKeys(ps: seq<Purchase>)
    requires ps != []
    ensures KeysOf(ps) != {}
  {
    assert WeekKey(SettledDay(ps[0])) in KeysOf(ps);
  }

  lemma HistoryWithoutLast(ps: seq<Purchase>, ss: seq<Settlement>)
    requires ss != [] && IsHistory(ps, ss)
    ensures IsHistory(OutsideWeek(ps, ss[|ss| - 1].weekOf), ss[..|ss| - 1])
  {
    var init, key := ss[..|ss| - 1], ss[|ss| - 1].weekOf;
    var rest := OutsideWeek(ps, key);
    forall k ensures k in KeysOf(rest) <==> k in KeysOf(ps) && k != key {
      KeysHavePurchases(ps, k);
      KeysHavePurchases(rest, k);
      SplitOffWeek(ps, key, k);
    }
    forall s | s in init
      ensures s.weekOf in KeysOf(rest) && Bucket(s.amount, s.transactions) == InWeek(rest, s.weekOf)
    {
      assert s in ss;
      SplitOffWeek(ps, key, s.weekOf);
    }
    forall k | k in KeysOf(rest) ensures exists s :: s in init && s.weekOf == k {
      var s :| s in ss && s.weekOf == k;
      assert s in init;
    }
  }

  /** Every settled purchase is in exactly one bucket, by the day it was settled, or created if that is not known. */
  lemma EachPurchaseInOneBucket(ps: seq<Purchase>, ss: seq<Settlement>, p: Purchase)
    requires IsHistory(ps, ss) && p in ps
    ensures var key := WeekKey(if p.settledAt != None then p.settledAt.value else p.createdAt);
            exists i :: 0 <= i < |ss| && ss[i].weekOf == key
                        && forall j | 0 <= j < |ss| && j != i :: ss[j].weekOf != key
  {
    var key := WeekKey(SettledDay(p));
    assert key in KeysOf(ps);
    var s :| s in ss && s.weekOf == key;
    var i :| 0 <= i < |ss| && ss[i] == s;
    assert forall j | 0 <= j < |ss| && j != i :: ss[j].weekOf != key;
  }
}

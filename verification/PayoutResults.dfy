/**
 The results about payouts: what earnings, payout records and the paise in them
 keep under every interleaving, and how record and earning statuses agree.
 */
module PayoutResults {
  import opened Prelude
  import opened Settlement
  import opened SettlementSafety

  // ----------------------------------------------------------- conservation

  /** Paise of the earnings joined to record k, among the first n. */
  function RecordSum(es: seq<Earning>, k: nat, n: nat): nat
    requires n <= |es|
  {
    if n == 0 then 0 else RecordSum(es, k, n - 1) + if es[n - 1].record == Some(k) then es[n - 1].paise else 0
  }

  function AllPaise(es: seq<Earning>, n: nat): nat
    requires n <= |es|
  {
    if n == 0 then 0 else AllPaise(es, n - 1) + es[n - 1].paise
  }

  /** The same earnings, apart from their status and reason. */
  ghost predicate SameMoney(a: seq<Earning>, b: seq<Earning>, n: nat) {
    n <= |a| && n <= |b| &&
    forall i | 0 <= i < n :: b[i].paise == a[i].paise && b[i].seller == a[i].seller && b[i].record == a[i].record
  }

  lemma {:induction false} SameMoneySameSums(a: seq<Earning>, b: seq<Earning>, n: nat, k: nat)
    requires SameMoney(a, b, n)
    ensures RecordSum(b, k, n) == RecordSum(a, k, n)
  {
    if n > 0 {
      SameMoneySameSums(a, b, n - 1, k);
    }
  }

  lemma {:induction false} SamePaiseSameSums(a: seq<Earning>, b: seq<Earning>, ids: set<nat>, n: nat)
    requires n <= |a| && n <= |b| && forall i | 0 <= i < n :: b[i].paise == a[i].paise
    ensures SumOf(b, ids, n) == SumOf(a, ids, n) && AllPaise(b, n) == AllPaise(a, n)
  {
    if n > 0 {
      SamePaiseSameSums(a, b, ids, n - 1);
    }
  }

  /** The earnings joined to a fresh record are worth what was summed over their ids. */
  lemma {:induction false} JoinedSum(es: seq<Earning>, joined: seq<Earning>, ids: set<nat>, k: nat, n: nat)
    requires n <= |es| == |joined|
    requires forall i | 0 <= i < n :: joined[i].paise == es[i].paise && (joined[i].record == Some(k) <==> i in ids)
    ensures RecordSum(joined, k, n) == SumOf(es, ids, n)
  {
    if n > 0 {
      JoinedSum(es, joined, ids, k, n - 1);
    }
  }

  lemma {:induction false} NothingJoinedYet(es: seq<Earning>, k: nat, n: nat)
    requires n <= |es| && forall i | 0 <= i < n :: es[i].record != Some(k)
    ensures RecordSum(es, k, n) == 0
  {
    if n > 0 {
      NothingJoinedYet(es, k, n - 1);
    }
  }

  ghost predicate JoinsOk(db: Db) {
    forall e | 0 <= e < |db.earnings| && db.earnings[e].record.Some? ::
      db.earnings[e].record.value < |db.records| &&
      db.records[db.earnings[e].record.value].seller == db.earnings[e].seller
  }

  /** Every record's total is the sum of the earnings joined to it. */
  ghost predicate TotalsOk(db: Db) {
    forall k | 0 <= k < |db.records| :: db.records[k].total == RecordSum(db.earnings, k, |db.earnings|)
  }

  /** A payout request in flight carries the true sum of the earnings it read. */
  ghost predicate PayoutCallsOk(s: State) {
    forall n | n in s.calls && s.calls[n].RequestingPayout? :: PayoutCallOk(s.db, s.calls[n])
  }

  ghost predicate PayoutCallOk(db: Db, call: Call)
    requires call.RequestingPayout?
  {
    && (forall i | i in call.ids :: i < |db.earnings| && db.earnings[i].seller == call.seller)
    && call.total == SumOf(db.earnings, call.ids, |db.earnings|)
  }

  ghost predicate MoneyInv(s: State) {
    EarningsOk(s.db) && JoinsOk(s.db) && TotalsOk(s.db) && PayoutCallsOk(s)
  }

  /** Steps that join nothing and create nothing. */
  ghost predicate MoneyStays(a: Db, b: Db) {
    && |b.earnings| == |a.earnings| && SameMoney(a.earnings, b.earnings, |a.earnings|)
    && |b.records| == |a.records|
    && forall k | 0 <= k < |a.records| ::
          b.records[k].total == a.records[k].total && b.records[k].seller == a.records[k].seller
  }

  lemma MoneyStaysKeepsTotals(a: Db, b: Db)
    requires JoinsOk(a) && TotalsOk(a) && MoneyStays(a, b)
    ensures JoinsOk(b) && TotalsOk(b)
  {
    forall k | 0 <= k < |b.records| ensures b.records[k].total == RecordSum(b.earnings, k, |b.earnings|) {
      SameMoneySameSums(a.earnings, b.earnings, |a.earnings|, k);
    }
  }

  lemma PayoutCallStays(a: Db, b: Db, call: Call)
    requires call.RequestingPayout? && PayoutCallOk(a, call)
    requires |a.earnings| <= |b.earnings|
    requires forall i | 0 <= i < |a.earnings| ::
               b.earnings[i].paise == a.earnings[i].paise && b.earnings[i].seller == a.earnings[i].seller
    ensures PayoutCallOk(b, call)
  {
    SamePaiseSameSums(a.earnings, b.earnings, call.ids, |a.earnings|);
    SumBeyond(b.earnings, call.ids, |a.earnings|, |b.earnings|);
  }

  lemma {:induction false} SumBeyond(es: seq<Earning>, ids: set<nat>, m: nat, n: nat)
    requires m <= n <= |es| && forall i | i in ids :: i < m
    ensures SumOf(es, ids, n) == SumOf(es, ids, m)
    decreases n
  {
    if m < n {
      SumBeyond(es, ids, m, n - 1);
    }
  }

  lemma RecordStepsKeepMoney(s: State, step: Step)
    requires PayoutStep(step) && !step.WritePayout?
    ensures MoneyStays(s.db, Apply(s, step).db)
  {
    if Continues(step) && Running(s, step.call) && Resumes(s.calls[step.call], step) {
      ResumedStepKeepsMoney(s.db, s.calls[step.call], step);
    }
  }

  lemma ResumedStepKeepsMoney(db: Db, call: Call, step: Step)
    requires Resumes(call, step) && !call.RequestingPayout?
    ensures MoneyStays(db, WriteBack(db, call, step))
  {
  }

  lemma ClaimStepsKeepMoney(s: State, step: Step)
    requires !PayoutStep(step) && !step.Capture?
    ensures MoneyStays(s.db, Apply(s, step).db)
  {
  }

  lemma OtherStepsKeepMoney(s: State, step: Step)
    requires !step.Capture? && !step.WritePayout?
    ensures MoneyStays(s.db, Apply(s, step).db)
  {
    if PayoutStep(step) {
      RecordStepsKeepMoney(s, step);
    } else {
      ClaimStepsKeepMoney(s, step);
    }
  }

  lemma CaptureKeepsTotals(db: Db, r: nat, seller: nat, paise: nat)
    requires JoinsOk(db) && TotalsOk(db)
    ensures JoinsOk(CommitCapture(db, r, seller, paise)) && TotalsOk(CommitCapture(db, r, seller, paise))
  {
    var t := CommitCapture(db, r, seller, paise);
    forall k | 0 <= k < |t.records| ensures t.records[k].total == RecordSum(t.earnings, k, |t.earnings|) {
      SameMoneySameSums(db.earnings, t.earnings, |db.earnings|, k);
    }
  }

  lemma PayoutKeepsJoins(db: Db, call: Call)
    requires call.RequestingPayout? && JoinsOk(db) && PayoutCallOk(db, call)
    ensures JoinsOk(CommitPayout(db, call.seller, call.ids, call.total).0)
  {
  }

  lemma JoinKeepsSums(db: Db, ids: set<nat>)
    requires EarningsOk(db) && JoinsOk(db) && StillAvailable(db.earnings, ids)
    ensures var joined, n := Join(db.earnings, ids, |db.records|), |db.earnings|;
            && RecordSum(joined, |db.records|, n) == SumOf(db.earnings, ids, n)
            && forall j | 0 <= j < |db.records| :: RecordSum(joined, j, n) == RecordSum(db.earnings, j, n)
  {
    var k, joined, n := |db.records|, Join(db.earnings, ids, |db.records|), |db.earnings|;
    forall i | 0 <= i < n ensures joined[i].record == Some(k) <==> i in ids {
      assert db.earnings[i].record != Some(k);
    }
    JoinedSum(db.earnings, joined, ids, k, n);
    forall j | 0 <= j < k ensures RecordSum(joined, j, n) == RecordSum(db.earnings, j, n) {
      forall i | i in ids ensures db.earnings[i].record.None? {
        assert EarningOk(db.earnings[i]);
      }
      OldRecordsKeepSums(db.earnings, joined, ids, k, j, n);
    }
  }

  lemma PayoutKeepsTotals(db: Db, call: Call)
    requires call.RequestingPayout? && EarningsOk(db) && JoinsOk(db) && TotalsOk(db) && PayoutCallOk(db, call)
    ensures TotalsOk(CommitPayout(db, call.seller, call.ids, call.total).0)
  {
    if StillAvailable(db.earnings, call.ids) {
      JoinKeepsSums(db, call.ids);
    }
  }

  lemma {:induction false} OldRecordsKeepSums(es: seq<Earning>, joined: seq<Earning>, ids: set<nat>,
                                       k: nat, j: nat, n: nat)
    requires n <= |es| && joined == Join(es, ids, k) && j != k
    requires forall i | i in ids && i < |es| :: es[i].record.None?
    ensures RecordSum(joined, j, n) == RecordSum(es, j, n)
  {
    if n > 0 {
      OldRecordsKeepSums(es, joined, ids, k, j, n - 1);
    }
  }

  lemma StepKeepsMoney(s: State, step: Step)
    requires Inv(s) && MoneyInv(s)
    ensures MoneyInv(Apply(s, step))
  {
    var t := Apply(s, step);
    StepKeepsInv(s, step);
    if step.Capture? {
      CaptureKeepsTotals(s.db, step.r, step.seller, step.paise);
    } else if step.WritePayout? {
      if step.call in s.calls && s.calls[step.call].RequestingPayout? {
        PayoutKeepsJoins(s.db, s.calls[step.call]);
        PayoutKeepsTotals(s.db, s.calls[step.call]);
      }
    } else {
      OtherStepsKeepMoney(s, step);
      MoneyStaysKeepsTotals(s.db, t.db);
    }
    StepKeepsPayoutCalls(s, step);
  }

  lemma StepKeepsPayoutCalls(s: State, step: Step)
    requires MoneyInv(s)
    ensures PayoutCallsOk(Apply(s, step))
  {
    var t := Apply(s, step);
    MoneyOnlyGrows(s, step);
    forall n | n in t.calls && t.calls[n].RequestingPayout? ensures PayoutCallOk(t.db, t.calls[n]) {
      if n in s.calls && s.calls[n] == t.calls[n] {
        PayoutCallStays(s.db, t.db, t.calls[n]);
      } else {
        NewPayoutCallIsTrue(s, step, n);
      }
    }
  }

  lemma NewPayoutCallIsTrue(s: State, step: Step, n: nat)
    requires var t := Apply(s, step); n in t.calls && t.calls[n].RequestingPayout?
    requires !(n in s.calls && s.calls[n] == Apply(s, step).calls[n])
    ensures Apply(s, step).db == s.db && PayoutCallOk(s.db, Apply(s, step).calls[n])
  {
  }

  /** No step changes the amount or the owner of an earning. */
  lemma MoneyOnlyGrows(s: State, step: Step)
    ensures var a, b := s.db.earnings, Apply(s, step).db.earnings;
            && |a| <= |b|
            && forall i | 0 <= i < |a| :: b[i].paise == a[i].paise && b[i].seller == a[i].seller
  {
    if !step.Capture? && !step.WritePayout? {
      OtherStepsKeepMoney(s, step);
    }
  }

  lemma {:induction false} MoneyInvHoldsAlongRuns(s: State, steps: seq<Step>)
    requires Inv(s) && MoneyInv(s)
    ensures Inv(Run(s, steps)) && MoneyInv(Run(s, steps))
    decreases |steps|
  {
    if steps != [] {
      StepKeepsInv(s, steps[0]);
      StepKeepsMoney(s, steps[0]);
      MoneyInvHoldsAlongRuns(Apply(s, steps[0]), steps[1..]);
    }
  }

  lemma InitialMoneyIsOk(s: State)
    requires Initial(s)
    ensures Inv(s) && MoneyInv(s)
  {
  }

  /**
   Under any number of concurrent payout requests (and everything else), each
   record's total is the sum of the paise of the earnings joined to it, all of
   them the same expert's.
   */
  lemma RecordTotalsAreSums(s: State, steps: seq<Step>, k: nat)
    requires Initial(s)
    ensures var db := Run(s, steps).db;
            k < |db.records| ==>
              && db.records[k].total == RecordSum(db.earnings, k, |db.earnings|)
              && forall e | 0 <= e < |db.earnings| && db.earnings[e].record == Some(k) ::
                     db.earnings[e].seller == db.records[k].seller
  {
    InitialMoneyIsOk(s);
    MoneyInvHoldsAlongRuns(s, steps);
  }

  /** An earning that joined a payout record stays joined to that one: it is never paid out twice. */
  lemma {:induction false} EarningJoinsOneRecord(s: State, steps: seq<Step>, e: nat)
    requires Inv(s) && e < |s.db.earnings| && s.db.earnings[e].record.Some?
    ensures e < |Run(s, steps).db.earnings| && Run(s, steps).db.earnings[e].record == s.db.earnings[e].record
    decreases |steps|
  {
    if steps != [] {
      var t := Apply(s, steps[0]);
      assert EarningOk(s.db.earnings[e]);
      if !steps[0].Capture? && !steps[0].WritePayout? {
        OtherStepsKeepMoney(s, steps[0]);
      }
      StepKeepsInv(s, steps[0]);
      EarningJoinsOneRecord(t, steps[1..], e);
    }
  }

  /**
   Of payout requests in flight that read a common earning, one that comes after
   the earning was joined changes nothing, however long after.
   */
  lemma LaterPayoutOfJoinedEarningFails(s: State, steps: seq<Step>, e: nat, call: nat)
    requires Inv(s) && e < |s.db.earnings| && s.db.earnings[e].record.Some?
    ensures var t := Run(s, steps);
            call in t.calls && t.calls[call].RequestingPayout? && e in t.calls[call].ids ==>
              Apply(t, WritePayout(call)).db == t.db
  {
    EarningJoinsOneRecord(s, steps, e);
    InvHoldsAlongRuns(s, steps);
    assert EarningOk(Run(s, steps).db.earnings[e]);
  }

  /**
   Two payout requests in flight that both read a set of earnings still available:
   the one that writes first gets a record with their sum, the other changes
   nothing.
   */
  lemma ConcurrentPayoutsOneWins(s: State, m: nat, n: nat)
    requires Inv(s) && m in s.calls && n in s.calls && m != n
    requires s.calls[m].RequestingPayout? && s.calls[n].RequestingPayout?
    requires s.calls[m].ids * s.calls[n].ids != {} && StillAvailable(s.db.earnings, s.calls[m].ids)
    ensures var t := Apply(s, WritePayout(m));
            && |t.db.records| == |s.db.records| + 1
            && (forall e | e in s.calls[m].ids :: t.db.earnings[e].record == Some(|s.db.records|))
            && Apply(t, WritePayout(n)).db == t.db
  {
    var e :| e in s.calls[m].ids * s.calls[n].ids;
    assert Apply(s, WritePayout(m)).db.earnings[e].status == Requested;
  }

  /**
   An earning that was claimed into a payout never becomes available again, so a
   second payout started from it is refused, at any later time.
   */
  lemma ClaimedEarningIsNeverAvailableAgain(s: State, steps: seq<Step>, e: nat)
    requires Inv(s) && e < |s.db.earnings| && s.db.earnings[e].record.Some?
    ensures e < |Run(s, steps).db.earnings| && Run(s, steps).db.earnings[e].status != Available
    ensures e !in Claimable(Run(s, steps).db.earnings, s.db.earnings[e].seller)
  {
    EarningJoinsOneRecord(s, steps, e);
    InvHoldsAlongRuns(s, steps);
    assert EarningOk(Run(s, steps).db.earnings[e]);
  }

  /** What a step captures: a payment on a report not yet delivered. */
  function CapturedBy(s: State, step: Step): nat {
    if step.Capture? && CommitCapture(s.db, step.r, step.seller, step.paise) != s.db then step.paise else 0
  }

  function Captured(s: State, steps: seq<Step>): nat
    decreases |steps|
  {
    if steps == [] then 0 else CapturedBy(s, steps[0]) + Captured(Apply(s, steps[0]), steps[1..])
  }

  lemma StepConservesPaise(s: State, step: Step)
    ensures var a, b := s.db.earnings, Apply(s, step).db.earnings;
            AllPaise(b, |b|) == AllPaise(a, |a|) + CapturedBy(s, step)
  {
    var a, b := s.db.earnings, Apply(s, step).db.earnings;
    MoneyOnlyGrows(s, step);
    SamePaiseSameSums(a, b, {}, |a|);
    if !step.Capture? && !step.WritePayout? {
      OtherStepsKeepMoney(s, step);
    }
  }

  /** Paise are conserved: the earnings of any reachable state sum to those at the start plus what was captured. */
  lemma {:induction false} PaiseAreConserved(s: State, steps: seq<Step>)
    ensures var a, b := s.db.earnings, Run(s, steps).db.earnings;
            AllPaise(b, |b|) == AllPaise(a, |a|) + Captured(s, steps)
    decreases |steps|
  {
    if steps != [] {
      StepConservesPaise(s, steps[0]);
      PaiseAreConserved(Apply(s, steps[0]), steps[1..]);
    }
  }
}

/**
 The retry count of payout records: what it counts, and exactly when the cap of
 three failed sends survives handlers that read it early.
 */
module PayoutRetries {
  import opened Prelude
  import opened Settlement
  import opened SettlementSafety
  import opened PayoutStatus

  // --------------------------------------------------------------- the retry cap

  /** Under the cap while it may be sent, at the cap when it needs a human. */
  predicate CapHolds(r: Record) {
    && r.retries <= MAX_PAYOUT_RETRY_ATTEMPTS
    && (r.status in {Requested, Retryable, Processing} ==> r.retries < MAX_PAYOUT_RETRY_ATTEMPTS)
    && (r.status == ManualReview ==> r.retries == MAX_PAYOUT_RETRY_ATTEMPTS)
  }

  ghost predicate RetriesOk(db: Db) {
    forall k | 0 <= k < |db.records| :: CapHolds(db.records[k])
  }

  /** The provider took the transfer and the guarded update goes through. */
  predicate SendSucceeds(db: Db, k: nat, sent: Option<nat>) {
    k < |db.records| && sent.Some? && db.records[k].status in SENDABLE && !PayoutIdUsed(db, k, sent.value)
  }

  /**
   A send that fails although its handler read another count: it stops short of
   the cap while the row is past it, or the other way round.
   */
  predicate MissesCap(s: State, step: Step) {
    step.WriteSent? && step.call in s.calls && s.calls[step.call].Sending? &&
    var k, seen := s.calls[step.call].record, s.calls[step.call].retriesSeen;
    k < |s.db.records| && !SendSucceeds(s.db, k, step.sent) &&
    (s.db.records[k].retries >= MAX_PAYOUT_RETRY_ATTEMPTS ||
     (seen + 1 >= MAX_PAYOUT_RETRY_ATTEMPTS) != (s.db.records[k].retries + 1 >= MAX_PAYOUT_RETRY_ATTEMPTS))
  }

  /** A write-off that puts back a count above the cap. */
  predicate RestoresExcess(s: State, step: Step) {
    step.WriteManual? && step.call in s.calls && s.calls[step.call].Reviewing? && !s.calls[step.call].retry
    && s.calls[step.call].record < |s.db.records| && s.calls[step.call].retriesSeen > MAX_PAYOUT_RETRY_ATTEMPTS
  }

  /** A reported failure that was counted against the cap before the count was reset. */
  predicate ReviewsEarly(s: State, step: Step) {
    step.FinishEvent? && step.call in s.calls && s.calls[step.call].Failing? && s.calls[step.call].review
    && s.calls[step.call].record < |s.db.records| && s.db.records[s.calls[step.call].record].status == Processing
  }

  /**
   Every step, divided or not, keeps the cap, with three exact exceptions, all of
   them writes based on an earlier read: a failed send whose read count and the
   row's disagree about the cap or whose row is at it already, a write-off that
   puts back too high a count, and a failure event that was judged on one.
   */
  lemma CapKeptExactly(s: State, step: Step)
    requires RetriesOk(s.db)
    ensures RetriesOk(Apply(s, step).db) <==>
            !(MissesCap(s, step) || RestoresExcess(s, step) || ReviewsEarly(s, step))
  {
    if !PayoutStep(step) {
      OtherStepsKeepRecords(s, step);
    } else if step.WriteSent? {
      SentKeepsCapExactly(s, step);
    } else if step.WriteManual? || step.FinishEvent? {
      ManualAndEventKeepCapExactly(s, step);
    } else {
      UndividedPayoutStepKeepsCap(s, step);
    }
  }

  lemma SentKeepsCapExactly(s: State, step: Step)
    requires RetriesOk(s.db) && step.WriteSent?
    ensures RetriesOk(Apply(s, step).db) <==> !MissesCap(s, step)
  {
    var t := Apply(s, step);
    if step.call in s.calls && s.calls[step.call].Sending? && s.calls[step.call].record < |s.db.records| {
      var k := s.calls[step.call].record;
      assert forall j | 0 <= j < |s.db.records| && j != k :: t.db.records[j] == s.db.records[j];
      assert CapHolds(s.db.records[k]);
      assert RetriesOk(t.db) <==> CapHolds(t.db.records[k]);
    }
  }

  lemma ManualAndEventKeepCapExactly(s: State, step: Step)
    requires RetriesOk(s.db) && (step.WriteManual? || step.FinishEvent?)
    ensures RetriesOk(Apply(s, step).db) <==> !(RestoresExcess(s, step) || ReviewsEarly(s, step))
  {
    var t := Apply(s, step);
    if step.call in s.calls && (s.calls[step.call].Reviewing? || s.calls[step.call].Failing?)
       && s.calls[step.call].record < |s.db.records| {
      var k := s.calls[step.call].record;
      assert forall j | 0 <= j < |s.db.records| && j != k :: t.db.records[j] == s.db.records[j];
      assert CapHolds(s.db.records[k]);
      assert RetriesOk(t.db) <==> CapHolds(t.db.records[k]);
    }
  }

  lemma HandlersKeepCap(db: Db, k: nat, sent: Option<nat>, retry: bool, pid: nat, event: PayoutEvent)
    requires RetriesOk(db)
    ensures RetriesOk(SendNow(db, k, sent)) && RetriesOk(ReviewNow(db, k, retry))
    ensures RetriesOk(CommitWebhook(db, pid, event))
  {
  }

  lemma UndividedPayoutStepKeepsCap(s: State, step: Step)
    requires RetriesOk(s.db) && PayoutStep(step) && !step.WriteSent? && !step.WriteManual? && !step.FinishEvent?
    ensures RetriesOk(Apply(s, step).db)
  {
    match step
    case Send(k, sent) => HandlersKeepCap(s.db, k, sent, false, 0, PayoutFailed);
    case Review(k, retry) => HandlersKeepCap(s.db, k, None, retry, 0, PayoutFailed);
    case Webhook(pid, event) => HandlersKeepCap(s.db, 0, None, false, pid, event);
    case WritePayout(call) =>
    case WriteEvent(call) =>
  }

  ghost predicate BreaksCap(s: State, step: Step) {
    MissesCap(s, step) || RestoresExcess(s, step) || ReviewsEarly(s, step)
  }

  /** Over every run without such a write a record is in MANUAL_REVIEW after exactly three failed sends. */
  lemma {:induction false} RetriesAreCapped(s: State, steps: seq<Step>)
    requires RetriesOk(s.db) && forall i | 0 <= i < |steps| :: !BreaksCap(Run(s, steps[..i]), steps[i])
    ensures RetriesOk(Run(s, steps).db)
    decreases |steps|
  {
    if steps != [] {
      var t := Apply(s, steps[0]);
      assert steps[..0] == [];
      CapKeptExactly(s, steps[0]);
      forall i | 0 <= i < |steps[1..]| ensures !BreaksCap(Run(t, steps[1..][..i]), steps[1..][i]) {
        assert steps[..i + 1][0] == steps[0] && steps[..i + 1][1..] == steps[1..][..i];
      }
      RetriesAreCapped(t, steps[1..]);
    }
  }

  ghost predicate NoEarlyReview(s: State) {
    forall call | call in s.calls && s.calls[call].Failing? :: !s.calls[call].review
  }

  /** In particular with sends and reviews undivided, however events are divided. */
  lemma {:induction false} UndividedSendsAreCapped(s: State, steps: seq<Step>)
    requires UndividedPayouts(steps) && RetriesOk(s.db) && NoEarlyReview(s)
    ensures RetriesOk(Run(s, steps).db)
    decreases |steps|
  {
    if steps != [] {
      CapKeptExactly(s, steps[0]);
      EventsJudgeUnderCap(s, steps[0]);
      UndividedSendsAreCapped(Apply(s, steps[0]), steps[1..]);
    }
  }

  /** A record being processed is under the cap, so a failure event sends it back to RETRYABLE. */
  lemma EventsJudgeUnderCap(s: State, step: Step)
    requires RetriesOk(s.db) && NoEarlyReview(s)
    ensures NoEarlyReview(Apply(s, step)) && !ReviewsEarly(s, step)
  {
  }

  /**
   The cap never counts failures the provider reports afterwards: while it
   holds, a failure event on a record being processed always leaves it RETRYABLE
   with the same count, never in MANUAL_REVIEW.
   */
  lemma ReportedFailuresAreNotCapped(s: State, pid: nat, k: nat)
    requires RetriesOk(s.db) && FindRecord(s.db.records, pid) == Some(k) && s.db.records[k].status == Processing
    ensures var after := Apply(s, Webhook(pid, PayoutFailed)).db.records[k];
            after.status == Retryable && after.retries == s.db.records[k].retries
  {
  }

  // -------------------------------------------------------- what the count counts

  /** The step is a send of record k that fails, whoever read what. */
  predicate FailsSend(s: State, step: Step, k: nat) {
    || (step.Send? && step.k == k && CheckSend(s.db, k) == Ok && !SendSucceeds(s.db, k, step.sent))
    || (step.WriteSent? && step.call in s.calls && s.calls[step.call].Sending? && s.calls[step.call].record == k
        && k < |s.db.records| && !SendSucceeds(s.db, k, step.sent))
  }

  /** The step is a review that resets record k's count. */
  predicate ResetsCount(s: State, step: Step, k: nat) {
    || (step.Review? && step.k == k && CheckManual(s.db, k) == Ok && step.retry)
    || (step.WriteManual? && step.call in s.calls && s.calls[step.call].Reviewing? && s.calls[step.call].record == k
        && k < |s.db.records| && s.calls[step.call].retry)
  }

  /** The step is a write-off that puts back a count read before it changed. */
  predicate RewindsCount(s: State, step: Step, k: nat) {
    step.WriteManual? && step.call in s.calls && s.calls[step.call].Reviewing? && s.calls[step.call].record == k
    && k < |s.db.records| && !s.calls[step.call].retry && s.calls[step.call].retriesSeen != s.db.records[k].retries
  }

  /** One step's effect on a count of failures since the last reset. */
  function Counted(s: State, step: Step, k: nat, n: nat): nat {
    if FailsSend(s, step, k) then n + 1 else if ResetsCount(s, step, k) then 0 else n
  }

  /** How many sends of record k failed along a run since its count was last reset. */
  function FailuresSinceReset(s: State, steps: seq<Step>, k: nat): nat
    decreases |steps|
  {
    if steps == [] then 0
    else
      var init := steps[..|steps| - 1];
      Counted(Run(s, init), steps[|steps| - 1], k, FailuresSinceReset(s, init, k))
  }

  /** The stored count moves exactly as failures are counted, unless a write-off rewinds it. */
  lemma CountMovesExactly(s: State, step: Step, k: nat)
    requires k < |s.db.records|
    ensures k < |Apply(s, step).db.records|
    ensures Apply(s, step).db.records[k].retries == Counted(s, step, k, s.db.records[k].retries) <==>
            !RewindsCount(s, step, k)
  {
    if PayoutStep(step) {
      PayoutStepMovesCount(s, step, k);
    } else {
      OtherStepsKeepRecords(s, step);
    }
  }

  lemma PayoutStepMovesCount(s: State, step: Step, k: nat)
    requires PayoutStep(step) && k < |s.db.records|
    ensures k < |Apply(s, step).db.records|
    ensures Apply(s, step).db.records[k].retries == Counted(s, step, k, s.db.records[k].retries) <==>
            !RewindsCount(s, step, k)
  {
  }

  lemma NothingCountsBefore(s: State, step: Step, k: nat)
    requires k >= |s.db.records|
    ensures !FailsSend(s, step, k)
    ensures k < |Apply(s, step).db.records| ==> Apply(s, step).db.records[k].retries == 0
  {
    RecordsNeverVanish(s, step);
  }

  /** Along every run without such a write-off a record's count is its failed sends since the last reset. */
  lemma {:induction false} RetriesCountFailures(s: State, steps: seq<Step>, k: nat)
    requires k < |s.db.records| ==> s.db.records[k].retries == 0
    requires forall i | 0 <= i < |steps| :: !RewindsCount(Run(s, steps[..i]), steps[i], k)
    ensures var t := Run(s, steps);
            if k < |t.db.records| then t.db.records[k].retries == FailuresSinceReset(s, steps, k)
            else FailuresSinceReset(s, steps, k) == 0
    decreases |steps|
  {
    if steps != [] {
      var init, last := steps[..|steps| - 1], steps[|steps| - 1];
      forall i | 0 <= i < |init| ensures !RewindsCount(Run(s, init[..i]), init[i], k) {
        assert init[..i] == steps[..i];
      }
      RetriesCountFailures(s, init, k);
      RunSnoc(s, steps);
      if k < |Run(s, init).db.records| {
        CountMovesExactly(Run(s, init), last, k);
      } else {
        NothingCountsBefore(Run(s, init), last, k);
      }
    }
  }
}

/**
 Payout records and their earnings carry the same status, and how PAID is entered
 and left. Handlers are divided wherever the code divides them: a send around the
 provider call, a review after its read, a provider event between its statements.
 */
module PayoutStatus {
  import opened Prelude
  import opened Settlement
  import opened SettlementRules
  import opened SettlementSafety

  // ------------------------------------------------------- one status for both

  /** Statuses of payout records and of the earnings joined to one. */
  const LIVE := {Requested, Processing, Paid, Retryable, ManualReview, Reversed}

  ghost predicate Live(db: Db) {
    && (forall k | 0 <= k < |db.records| :: db.records[k].status in LIVE)
    && (forall e | 0 <= e < |db.earnings| && db.earnings[e].record.Some? :: db.earnings[e].status in LIVE)
  }

  /** Every earning joined to a record has the record's status. */
  ghost predicate Agree(db: Db) {
    forall e | 0 <= e < |db.earnings| && db.earnings[e].record.Some? ::
      db.earnings[e].record.value < |db.records|
      && db.earnings[e].status == db.records[db.earnings[e].record.value].status
  }

  /** An event's handler is about to give record k's earnings the status the record has now. */
  predicate FollowsUp(s: State, call: nat, k: nat) {
    call in s.calls && s.calls[call].Following? && s.calls[call].record == k
    && k < |s.db.records| && EndStatus(s.calls[call].paid) == s.db.records[k].status
  }

  predicate FollowUpPending(s: State, k: nat) {
    exists call | call in s.calls :: FollowsUp(s, call, k)
  }

  predicate Joined(db: Db, e: nat, k: nat) {
    e < |db.earnings| && db.earnings[e].record == Some(k)
  }

  /** The earning has record k's status, or an event's handler is about to give it to it. */
  predicate EarningAgrees(s: State, e: nat, k: nat) {
    e < |s.db.earnings| && k < |s.db.records|
    && (s.db.earnings[e].status == s.db.records[k].status || FollowUpPending(s, k))
  }

  ghost predicate Agreement(s: State) {
    forall e: nat, k: nat | Joined(s.db, e, k) :: EarningAgrees(s, e, k)
  }

  /** The step is a refund that reverses earning e: as it is now, or as it was when the refund read it. */
  predicate RefundHits(s: State, step: Step, e: nat) {
    e < |s.db.earnings| &&
    ((step.ProcessRefund? && CommitRefund(s.db, step.f, step.hit).1 == Ok && e in Reversible(s.db, step.f, step.hit)) ||
     (step.FinishRefund? && step.call in s.calls && s.calls[step.call].Reversing? && e in s.calls[step.call].read))
  }

  /** A refund reverses an earning of a record k that is not reversed itself, nor about to be followed. */
  ghost predicate ReversesJoined(s: State, step: Step, e: nat, k: nat) {
    RefundHits(s, step, e) && Joined(s.db, e, k) && k < |s.db.records|
    && s.db.records[k].status != Reversed && !FollowUpPending(s, k)
  }

  /** An event's second statement, after the record it settled has moved on. */
  ghost predicate Overtaken(s: State, step: Step, e: nat, k: nat) {
    step.FinishEvent? && step.call in s.calls && s.calls[step.call].Following? && s.calls[step.call].record == k
    && k < |s.db.records| && s.db.records[k].status != EndStatus(s.calls[step.call].paid)
    && Joined(s.db, e, k) && !FollowUpPending(s, k)
  }

  /** An event's handler stops between its two statements, and no other delivery stands in for it. */
  ghost predicate LeftBehind(s: State, step: Step, e: nat, k: nat) {
    step.Abandon? && FollowsUp(s, step.call, k)
    && Joined(s.db, e, k) && s.db.earnings[e].status != s.db.records[k].status
    && forall call | call in s.calls && call != step.call :: !FollowsUp(s, call, k)
  }

  ghost predicate Breaks(s: State, step: Step) {
    exists e: nat, k: nat :: Joined(s.db, e, k) &&
      (ReversesJoined(s, step, e, k) || Overtaken(s, step, e, k) || LeftBehind(s, step, e, k))
  }

  /**
   Every step of every handler, divided as in the code, keeps record and earning
   statuses in agreement, up to follow-ups still to come, with three exact
   exceptions: a refund that reverses an earning of a record not reversed itself
   (waiting for a retry when the refund read it, or joined, sent or paid since), an
   event's second statement after the record moved on, and an event's handler
   that stops before its second statement.
   */
  lemma AgreementKeptExactly(s: State, step: Step)
    requires Inv(s) && Agreement(s) && Live(s.db)
    ensures Agreement(Apply(s, step)) <==> !Breaks(s, step)
    ensures Live(Apply(s, step).db)
  {
    StepKeepsLive(s, step);
    if step.ProcessRefund? || step.FinishRefund? {
      RefundKeepsAgreementExactly(s, step);
    } else if step.FinishEvent? {
      FinishKeepsAgreementExactly(s, step);
    } else if step.Abandon? {
      AbandonKeepsAgreementExactly(s, step);
    } else if PayoutStep(step) {
      PayoutStepKeepsAgreement(s, step);
    } else {
      OtherStepKeepsAgreement(s, step);
    }
  }

  lemma StepKeepsLive(s: State, step: Step)
    requires Live(s.db) && EarningsOk(s.db)
    ensures Live(Apply(s, step).db)
  {
    var t := Apply(s, step);
    if PayoutStep(step) {
      PayoutStepKeepsLive(s, step);
    } else {
      forall e: nat | e < |t.db.earnings| && t.db.earnings[e].record.Some? ensures t.db.earnings[e].status in LIVE {
        OtherStepKeepsLive(s, step, e);
      }
    }
  }

  lemma OtherStepKeepsLive(s: State, step: Step, e: nat)
    requires Live(s.db) && EarningsOk(s.db) && !PayoutStep(step)
    requires e < |Apply(s, step).db.earnings| && Apply(s, step).db.earnings[e].record.Some?
    ensures Apply(s, step).db.earnings[e].status in LIVE
  {
    if e < |s.db.earnings| {
      assert EarningOk(s.db.earnings[e]);
    }
  }

  lemma PayoutStepKeepsLive(s: State, step: Step)
    requires Live(s.db) && PayoutStep(step)
    ensures Live(Apply(s, step).db)
  {
    if !Continues(step) {
      AtOncePayoutKeepsLive(s, step);
    }
  }

  lemma AtOncePayoutKeepsLive(s: State, step: Step)
    requires Live(s.db) && (step.Send? || step.Review? || step.Webhook?)
    ensures Live(Handle(s, step).db)
  {
  }

  predicate FollowUpsKept(s: State, t: State) {
    forall call | call in s.calls && s.calls[call].Following? :: call in t.calls && t.calls[call] == s.calls[call]
  }

  lemma SameFollowUps(s: State, t: State, k: nat)
    requires k < |s.db.records| && k < |t.db.records| && t.db.records[k].status == s.db.records[k].status
    requires FollowUpsKept(s, t) && FollowUpsKept(t, s)
    ensures FollowUpPending(t, k) == FollowUpPending(s, k)
  {
    assert forall call | call in s.calls :: FollowsUp(s, call, k) ==> FollowsUp(t, call, k);
    assert forall call | call in t.calls :: FollowsUp(t, call, k) ==> FollowsUp(s, call, k);
  }

  lemma RefundKeepsAgreementExactly(s: State, step: Step)
    requires Inv(s) && Agreement(s) && Live(s.db) && (step.ProcessRefund? || step.FinishRefund?)
    ensures Agreement(Apply(s, step)) <==> !Breaks(s, step)
  {
    var t := Apply(s, step);
    assert t.db.records == s.db.records;
    forall e: nat, k: nat | Joined(s.db, e, k)
      ensures Joined(t.db, e, k) && (EarningAgrees(t, e, k) <==> !ReversesJoined(s, step, e, k))
    {
      assert EarningAgrees(s, e, k);
      SameFollowUps(s, t, k);
      assert RefundHits(s, step, e) || t.db.earnings[e] == s.db.earnings[e];
    }
    AgreementByEarning(s, step, t);
  }

  /** Agreement of all, from agreement one by one. */
  lemma AgreementByEarning(s: State, step: Step, t: State)
    requires forall e: nat, k: nat :: Joined(t.db, e, k) <==> Joined(s.db, e, k)
    requires forall e: nat, k: nat | Joined(s.db, e, k) ::
               EarningAgrees(t, e, k) <==>
               !(ReversesJoined(s, step, e, k) || Overtaken(s, step, e, k) || LeftBehind(s, step, e, k))
    ensures Agreement(t) <==> !Breaks(s, step)
  {
  }

  lemma FinishKeepsAgreementExactly(s: State, step: Step)
    requires Inv(s) && Agreement(s) && Live(s.db) && step.FinishEvent?
    ensures Agreement(Apply(s, step)) <==> !Breaks(s, step)
  {
    var t := Apply(s, step);
    if Running(s, step.call) && s.calls[step.call].Following? {
      var call := s.calls[step.call];
      forall e: nat, k: nat | Joined(s.db, e, k)
        ensures EarningAgrees(t, e, k) <==> !Overtaken(s, step, e, k)
      {
        assert EarningAgrees(s, e, k);
        FollowUpsAfterEnd(s, t, step.call, k);
      }
      AgreementByEarning(s, step, t);
    } else {
      PayoutStepKeepsAgreement(s, step);
    }
  }

  /** Once a call has ended, the follow-ups of record k are those of the other calls. */
  lemma FollowUpsAfterEnd(s: State, t: State, ended: nat, k: nat)
    requires t.calls == s.calls - {ended} && t.db.records == s.db.records && k < |s.db.records|
    ensures FollowUpPending(t, k) <==> exists call | call in s.calls && call != ended :: FollowsUp(s, call, k)
  {
    assert forall call | call in t.calls :: FollowsUp(t, call, k) == FollowsUp(s, call, k);
  }

  lemma AbandonKeepsAgreementExactly(s: State, step: Step)
    requires Inv(s) && Agreement(s) && step.Abandon?
    ensures Agreement(Apply(s, step)) <==> !Breaks(s, step)
  {
    var t := Apply(s, step);
    forall e: nat, k: nat | Joined(s.db, e, k)
      ensures EarningAgrees(t, e, k) <==> !LeftBehind(s, step, e, k)
    {
      assert EarningAgrees(s, e, k);
      FollowUpsAfterEnd(s, t, step.call, k);
    }
    AgreementByEarning(s, step, t);
  }

  /** What a payout step other than a second statement does: at most one record, with its earnings or followed up. */
  ghost predicate SetsOne(s: State, t: State, k: nat) {
    k < |s.db.records| && |t.db.records| == |s.db.records| && |t.db.earnings| == |s.db.earnings|
    && (forall j | 0 <= j < |s.db.records| && j != k :: t.db.records[j] == s.db.records[j])
    && (forall e | 0 <= e < |s.db.earnings| ::
          t.db.earnings[e].record == s.db.earnings[e].record
          && (s.db.earnings[e].record != Some(k) ==> t.db.earnings[e] == s.db.earnings[e]))
    && FollowUpsKept(s, t)
    && (FollowUpPending(t, k) ||
        forall e | 0 <= e < |s.db.earnings| && s.db.earnings[e].record == Some(k) ::
          t.db.earnings[e].status == t.db.records[k].status)
  }

  lemma SettingOneKeepsAgreement(s: State, t: State, k: nat)
    requires Agreement(s) && SetsOne(s, t, k)
    ensures Agreement(t)
  {
    forall e: nat, j: nat | Joined(t.db, e, j) ensures EarningAgrees(t, e, j) {
      assert Joined(s.db, e, j) && EarningAgrees(s, e, j);
      if j != k && FollowUpPending(s, j) {
        var call :| call in s.calls && FollowsUp(s, call, j);
        assert FollowsUp(t, call, j);
      }
    }
  }

  lemma JoinKeepsAgreement(s: State, step: Step)
    requires Agreement(s) && step.WritePayout? && EarningsOk(s.db)
    ensures Agreement(Apply(s, step))
  {
    var t := Apply(s, step);
    forall e: nat, j: nat | Joined(t.db, e, j) ensures EarningAgrees(t, e, j) {
      if t.db.earnings[e] == s.db.earnings[e] {
        assert Joined(s.db, e, j) && EarningAgrees(s, e, j);
        SameFollowUps(s, t, j);
      }
    }
  }

  /** A payout step that leaves every follow-up in flight leaves all else alone, or sets one record. */
  lemma PayoutStepSetsOne(s: State, step: Step) returns (k: nat)
    requires PayoutStep(step) && !step.WritePayout? && Apply(s, step).db != s.db
    requires step.FinishEvent? ==> Running(s, step.call) && !s.calls[step.call].Following?
    ensures SetsOne(s, Apply(s, step), k)
  {
    match step
    case Send(r, _) => k := r;
    case Review(r, _) => k := r;
    case Webhook(pid, _) => k := FindRecord(s.db.records, pid).value;
    case WriteSent(call, _) => k := ResumedStepSetsOne(s, call, step);
    case WriteManual(call) => k := ResumedStepSetsOne(s, call, step);
    case FinishEvent(call) => k := ResumedStepSetsOne(s, call, step);
    case WriteEvent(call) =>
      k := s.calls[call].record;
      FirstStatementSetsOne(s, call);
  }

  lemma ResumedStepSetsOne(s: State, call: nat, step: Step) returns (k: nat)
    requires Running(s, call) && Resumes(s.calls[call], step) && Resume(s, call, step).db != s.db
    requires s.calls[call].Sending? || s.calls[call].Reviewing? || s.calls[call].Failing?
    ensures SetsOne(s, Resume(s, call, step), k)
  {
    k := s.calls[call].record;
  }

  /** An event's first statement leaves the earnings behind, with a follow-up in flight. */
  lemma FirstStatementSetsOne(s: State, call: nat)
    requires Running(s, call) && s.calls[call].Delivering?
    requires SettlesNow(s.db, s.calls[call].record, s.calls[call].event)
    ensures SetsOne(s, Apply(s, WriteEvent(call)), s.calls[call].record)
  {
    assert FollowsUp(Apply(s, WriteEvent(call)), call, s.calls[call].record);
  }

  lemma PayoutStepKeepsAgreement(s: State, step: Step)
    requires Agreement(s) && PayoutStep(step) && EarningsOk(s.db)
    requires step.FinishEvent? ==> !(Running(s, step.call) && s.calls[step.call].Following?)
    ensures Agreement(Apply(s, step)) && !Breaks(s, step)
  {
    if step.WritePayout? {
      JoinKeepsAgreement(s, step);
    } else if Apply(s, step).db != s.db {
      var k := PayoutStepSetsOne(s, step);
      SettingOneKeepsAgreement(s, Apply(s, step), k);
    } else {
      FollowUpsStay(s, step);
      LeavingPayoutsKeepsAgreement(s, Apply(s, step));
    }
  }

  lemma FollowUpsStay(s: State, step: Step)
    requires !step.Abandon? && (step.FinishEvent? ==> !(Running(s, step.call) && s.calls[step.call].Following?))
    ensures FollowUpsKept(s, Apply(s, step))
  {
  }

  /** Steps that touch neither records nor joined earnings keep the agreement. */
  ghost predicate LeavesPayouts(s: State, t: State) {
    && t.db.records == s.db.records
    && forall e: nat, j: nat | Joined(t.db, e, j) :: Joined(s.db, e, j) && t.db.earnings[e] == s.db.earnings[e]
  }

  lemma LeavingPayoutsKeepsAgreement(s: State, t: State)
    requires Agreement(s) && LeavesPayouts(s, t)
    requires FollowUpsKept(s, t)
    ensures Agreement(t)
  {
    forall e: nat, j: nat | Joined(t.db, e, j) ensures EarningAgrees(t, e, j) {
      assert Joined(s.db, e, j) && EarningAgrees(s, e, j);
      if FollowUpPending(s, j) {
        var call :| call in s.calls && FollowsUp(s, call, j);
        assert FollowsUp(t, call, j);
      }
    }
  }

  lemma OtherStepLeavesPayouts(s: State, step: Step)
    requires EarningsOk(s.db) && !PayoutStep(step) && !step.ProcessRefund? && !step.FinishRefund?
    ensures LeavesPayouts(s, Apply(s, step))
  {
    var t := Apply(s, step);
    forall e: nat, j: nat | Joined(t.db, e, j) ensures Joined(s.db, e, j) && t.db.earnings[e] == s.db.earnings[e] {
      if e < |s.db.earnings| {
        assert EarningOk(s.db.earnings[e]);
      }
    }
  }

  lemma OtherStepKeepsAgreement(s: State, step: Step)
    requires Agreement(s) && EarningsOk(s.db) && !PayoutStep(step)
    requires !step.ProcessRefund? && !step.FinishRefund? && !step.Abandon?
    ensures Agreement(Apply(s, step)) && !Breaks(s, step)
  {
    OtherStepLeavesPayouts(s, step);
    FollowUpsStay(s, step);
    LeavingPayoutsKeepsAgreement(s, Apply(s, step));
  }

  predicate NoFollowUps(s: State) {
    forall call | call in s.calls :: !s.calls[call].Following?
  }

  /** Over every run without such a step the statuses agree whenever no event is between its statements. */
  lemma {:induction false} StatusesAgreeAlongRuns(s: State, steps: seq<Step>)
    requires Inv(s) && Agreement(s) && Live(s.db)
    requires forall i | 0 <= i < |steps| :: !Breaks(Run(s, steps[..i]), steps[i])
    ensures Agreement(Run(s, steps)) && (NoFollowUps(Run(s, steps)) ==> Agree(Run(s, steps).db))
    decreases |steps|
  {
    if steps == [] {
      forall e: nat | e < |s.db.earnings| && s.db.earnings[e].record.Some?
        ensures EarningAgrees(s, e, s.db.earnings[e].record.value)
      {
        assert Joined(s.db, e, s.db.earnings[e].record.value);
      }
    } else {
      var t := Apply(s, steps[0]);
      assert steps[..0] == [];
      AgreementKeptExactly(s, steps[0]);
      StepKeepsInv(s, steps[0]);
      forall i | 0 <= i < |steps[1..]| ensures !Breaks(Run(t, steps[1..][..i]), steps[1..][i]) {
        assert steps[..i + 1][0] == steps[0] && steps[..i + 1][1..] == steps[1..][..i];
      }
      StatusesAgreeAlongRuns(t, steps[1..]);
    }
  }

  // ------------------------------------------------------------------- PROCESSING

  /** The step sends record k, which waits to be sent or for a retry, and the provider's id is new. */
  predicate SendsNow(s: State, step: Step, k: nat) {
    || (step.Send? && step.k == k && MaySend(s.db, k, step.sent))
    || (step.WriteSent? && step.call in s.calls && s.calls[step.call].Sending? && s.calls[step.call].record == k
        && MaySend(s.db, k, step.sent))
  }

  function SentId(step: Step): Option<nat>
    requires step.Send? || step.WriteSent?
  {
    step.sent
  }

  lemma UsedExactly(db: Db, k: nat, pid: nat)
    ensures PayoutIdUsed(db, k, pid) <==> !FreshId(db, k, pid)
  {
  }

  /** What a send step may do to a record, and that no other step enters PROCESSING or touches a payout id. */
  lemma PayoutStepSendsExactly(s: State, step: Step, k: nat)
    requires PayoutStep(step) && k < |s.db.records|
    ensures k < |Apply(s, step).db.records|
    ensures var a, b := s.db.records[k], Apply(s, step).db.records[k];
            if SendsNow(s, step, k) then b == a.(status := Processing, payoutId := SentId(step))
            else b.payoutId == a.payoutId && (b.status == Processing ==> a.status == Processing)
  {
    if step.Send? || step.WriteSent? {
      SendStepSendsExactly(s, step, k);
    }
  }

  lemma SendStepSendsExactly(s: State, step: Step, k: nat)
    requires (step.Send? || step.WriteSent?) && k < |s.db.records|
    ensures k < |Apply(s, step).db.records|
    ensures var a, b := s.db.records[k], Apply(s, step).db.records[k];
            if SendsNow(s, step, k) then b == a.(status := Processing, payoutId := SentId(step))
            else b.payoutId == a.payoutId && (b.status == Processing ==> a.status == Processing)
  {
    if step.sent.Some? {
      UsedExactly(s.db, k, step.sent.value);
    }
  }

  /** Records stay, and a payout request adds one that is just requested. */
  lemma RecordsNeverVanish(s: State, step: Step)
    ensures var (a, b) := (s.db.records, Apply(s, step).db.records);
            && |a| <= |b| <= |a| + 1
            && (|b| > |a| ==> step.WritePayout? && b[|a|] == Record(b[|a|].seller, b[|a|].total, Requested, 0, None))
  {
  }

  /** A record enters PROCESSING, and takes a payout id, exactly when it is sent from REQUESTED or RETRYABLE. */
  lemma ProcessingOnlyBySend(s: State, step: Step, k: nat)
    requires k < |s.db.records|
    ensures k < |Apply(s, step).db.records|
    ensures var a, b := s.db.records[k], Apply(s, step).db.records[k];
            && (b.payoutId != a.payoutId || (b.status == Processing && a.status != Processing) ==> SendsNow(s, step, k))
            && (SendsNow(s, step, k) ==>
                  (a.status == Requested || a.status == Retryable)
                  && b == a.(status := Processing, payoutId := SentId(step)))
  {
    if PayoutStep(step) {
      PayoutStepSendsExactly(s, step, k);
    } else {
      OtherStepsKeepRecords(s, step);
    }
  }

  ghost predicate SentAt(s: State, steps: seq<Step>, k: nat, i: nat) {
    i < |steps| && k < |Run(s, steps[..i]).db.records| && SendsNow(Run(s, steps[..i]), steps[i], k)
  }

  /** Over every interleaving a record in PROCESSING was sent at some step, from REQUESTED or RETRYABLE. */
  lemma {:induction false} ProcessingWasSent(s: State, steps: seq<Step>, k: nat)
    requires k < |s.db.records| ==> s.db.records[k].status != Processing
    ensures var records := Run(s, steps).db.records;
            k < |records| && records[k].status == Processing ==> exists i: nat :: SentAt(s, steps, k, i)
    decreases |steps|
  {
    if steps != [] && k < |Run(s, steps).db.records| && Run(s, steps).db.records[k].status == Processing {
      var init, last := steps[..|steps| - 1], steps[|steps| - 1];
      ProcessingWasSent(s, init, k);
      RunSnoc(s, steps);
      RecordsNeverVanish(Run(s, init), last);
      if Run(s, init).db.records[k].status == Processing {
        var i: nat :| SentAt(s, init, k, i);
        assert init[..i] == steps[..i];
        assert SentAt(s, steps, k, i);
      } else {
        ProcessingOnlyBySend(Run(s, init), last, k);
        assert SentAt(s, steps, k, |init|);
      }
    }
  }

  /** No two records share a payout id, so an event names at most one. */
  ghost predicate IdsUnique(db: Db) {
    forall j, k | 0 <= j < k < |db.records| && db.records[j].payoutId.Some? ::
      db.records[j].payoutId != db.records[k].payoutId
  }

  lemma StepKeepsIdsUnique(s: State, step: Step)
    requires IdsUnique(s.db)
    ensures IdsUnique(Apply(s, step).db)
  {
    var t := Apply(s, step);
    RecordsNeverVanish(s, step);
    forall k: nat | k < |s.db.records|
      ensures t.db.records[k].payoutId == s.db.records[k].payoutId ||
              (SendsNow(s, step, k) && MaySend(s.db, k, t.db.records[k].payoutId))
    {
      ProcessingOnlyBySend(s, step, k);
    }
    OneIsSent(s, step);
    FreshIdsStayUnique(s.db, t.db);
  }

  lemma OneIsSent(s: State, step: Step)
    ensures forall j: nat, k: nat | SendsNow(s, step, j) && SendsNow(s, step, k) :: j == k
  {
  }

  /** Ids stay unique if one record at most takes a new one, and no other has that. */
  lemma FreshIdsStayUnique(a: Db, b: Db)
    requires IdsUnique(a) && |a.records| <= |b.records| <= |a.records| + 1
    requires |b.records| > |a.records| ==> b.records[|a.records|].payoutId == None
    requires forall k: nat | k < |a.records| && b.records[k].payoutId != a.records[k].payoutId ::
               MaySend(a, k, b.records[k].payoutId)
               && forall j: nat | j < |a.records| && j != k :: b.records[j].payoutId == a.records[j].payoutId
    ensures IdsUnique(b)
  {
  }

  lemma {:induction false} IdsStayUnique(s: State, steps: seq<Step>)
    requires IdsUnique(s.db)
    ensures IdsUnique(Run(s, steps).db)
    decreases |steps|
  {
    if steps != [] {
      StepKeepsIdsUnique(s, steps[0]);
      IdsStayUnique(Apply(s, steps[0]), steps[1..]);
    }
  }

  // ---------------------------------------------------------- PAID and REVERSED

  /** The record a send or a review is about to write. */
  predicate WritesRecord(s: State, step: Step, k: nat) {
    || (step.WriteSent? && step.call in s.calls && s.calls[step.call].Sending? && s.calls[step.call].record == k)
    || (step.WriteManual? && step.call in s.calls && s.calls[step.call].Reviewing? && s.calls[step.call].record == k)
  }

  /** An event of this kind reaches record k: delivered at once, or by the first statement of its handler. */
  predicate EventReaches(s: State, step: Step, k: nat, event: PayoutEvent) {
    || (step.Webhook? && step.event == event && FindRecord(s.db.records, step.pid) == Some(k))
    || (step.WriteEvent? && step.call in s.calls && s.calls[step.call] == Delivering(k, event))
  }

  /** Only payout steps write records. */
  lemma OtherStepsKeepRecords(s: State, step: Step)
    requires !PayoutStep(step)
    ensures Apply(s, step).db.records == s.db.records
  {
  }

  lemma PayoutStepPaidOnly(s: State, step: Step, k: nat)
    requires PayoutStep(step) && k < |s.db.records| && s.db.records[k].status != Paid
    ensures k < |Apply(s, step).db.records|
    ensures Apply(s, step).db.records[k].status == Paid <==>
            EventReaches(s, step, k, PayoutProcessed) && s.db.records[k].status == Processing
  {
  }

  /** PAID is entered by the provider's confirmation only, and only from PROCESSING. */
  lemma PaidOnlyByWebhook(s: State, step: Step, k: nat)
    requires k < |s.db.records| && s.db.records[k].status != Paid
    ensures k < |Apply(s, step).db.records|
    ensures Apply(s, step).db.records[k].status == Paid <==>
            EventReaches(s, step, k, PayoutProcessed) && s.db.records[k].status == Processing
  {
    if PayoutStep(step) {
      PayoutStepPaidOnly(s, step, k);
    } else {
      OtherStepsKeepRecords(s, step);
    }
  }

  /** Step j of the run is the delivery of an event for a payout id that record k then had. */
  predicate DeliveredAt(s: State, steps: seq<Step>, call: nat, k: nat, event: PayoutEvent, j: nat) {
    j < |steps| && steps[j].Deliver? && steps[j].call == call && steps[j].event == event
    && FindRecord(Run(s, steps[..j]).db.records, steps[j].pid) == Some(k)
  }

  ghost predicate WasDelivered(s: State, steps: seq<Step>, call: nat, k: nat, event: PayoutEvent) {
    exists j: nat :: DeliveredAt(s, steps, call, k, event, j)
  }

  lemma DeliveriesStay(s: State, steps: seq<Step>, call: nat, k: nat, event: PayoutEvent)
    requires steps != [] && WasDelivered(s, steps[..|steps| - 1], call, k, event)
    ensures WasDelivered(s, steps, call, k, event)
  {
    var j: nat :| DeliveredAt(s, steps[..|steps| - 1], call, k, event, j);
    assert steps[..|steps| - 1][..j] == steps[..j];
    assert DeliveredAt(s, steps, call, k, event, j);
  }

  /** An event in flight goes back to its delivery. */
  lemma {:induction false} EventsWereDelivered(s: State, steps: seq<Step>, call: nat)
    requires s.calls == map[]
    ensures var t := Run(s, steps);
            call in t.calls && t.calls[call].Delivering? ==>
              WasDelivered(s, steps, call, t.calls[call].record, t.calls[call].event)
    decreases |steps|
  {
    var t := Run(s, steps);
    if steps != [] && call in t.calls && t.calls[call].Delivering? {
      var init, last := steps[..|steps| - 1], steps[|steps| - 1];
      var before := Run(s, init);
      EventsWereDelivered(s, init, call);
      RunSnoc(s, steps);
      if call in before.calls && before.calls[call] == t.calls[call] {
        DeliveriesStay(s, steps, call, t.calls[call].record, t.calls[call].event);
      } else {
        NewEventIsDelivered(before, last, call);
        assert DeliveredAt(s, steps, call, t.calls[call].record, t.calls[call].event, |init|);
      }
    }
  }

  lemma NewEventIsDelivered(s: State, step: Step, call: nat)
    requires var t := Apply(s, step); call in t.calls && t.calls[call].Delivering?
    requires !(call in s.calls && s.calls[call] == Apply(s, step).calls[call])
    ensures var c := Apply(s, step).calls[call];
            step.Deliver? && step.call == call && step.event == c.event
            && FindRecord(s.db.records, step.pid) == Some(c.record)
  {
  }

  /** Step i of the run is the provider's confirmation of an id that record k has had, and sets it PAID. */
  ghost predicate ConfirmedAt(s: State, steps: seq<Step>, k: nat, i: nat) {
    i < |steps| &&
    var before := Run(s, steps[..i]);
    k < |before.db.records| && before.db.records[k].status == Processing
    && EventReaches(before, steps[i], k, PayoutProcessed)
    && (steps[i].WriteEvent? ==> WasDelivered(s, steps[..i], steps[i].call, k, PayoutProcessed))
  }

  lemma ConfirmationsStay(s: State, steps: seq<Step>, k: nat, i: nat)
    requires steps != [] && ConfirmedAt(s, steps[..|steps| - 1], k, i)
    ensures ConfirmedAt(s, steps, k, i)
  {
    assert steps[..|steps| - 1][..i] == steps[..i];
  }

  lemma LastStepConfirms(s: State, steps: seq<Step>, k: nat)
    requires s.calls == map[] && steps != []
    requires var init := steps[..|steps| - 1];
             && k < |Run(s, init).db.records| && Run(s, init).db.records[k].status != Paid
             && k < |Run(s, steps).db.records| && Run(s, steps).db.records[k].status == Paid
    ensures ConfirmedAt(s, steps, k, |steps| - 1)
  {
    var init, last := steps[..|steps| - 1], steps[|steps| - 1];
    RunSnoc(s, steps);
    PaidOnlyByWebhook(Run(s, init), last, k);
    if last.WriteEvent? {
      EventsWereDelivered(s, init, last.call);
    }
  }

  /** Over every interleaving a paid record was confirmed by the provider at some step of the run. */
  lemma {:induction false} PaidWasConfirmed(s: State, steps: seq<Step>, k: nat)
    requires s.calls == map[] && (k < |s.db.records| ==> s.db.records[k].status != Paid)
    ensures var records := Run(s, steps).db.records;
            k < |records| && records[k].status == Paid ==> exists i: nat :: ConfirmedAt(s, steps, k, i)
    decreases |steps|
  {
    if steps != [] && k < |Run(s, steps).db.records| && Run(s, steps).db.records[k].status == Paid {
      var init := steps[..|steps| - 1];
      PaidWasConfirmed(s, init, k);
      RecordStillPaid(s, steps, k);
      if Run(s, init).db.records[k].status == Paid {
        var i: nat :| ConfirmedAt(s, init, k, i);
        ConfirmationsStay(s, steps, k, i);
      } else {
        LastStepConfirms(s, steps, k);
      }
    }
  }

  /** A record that is paid now was there before the last step. */
  lemma RecordStillPaid(s: State, steps: seq<Step>, k: nat)
    requires steps != [] && k < |Run(s, steps).db.records| && Run(s, steps).db.records[k].status == Paid
    ensures k < |Run(s, steps[..|steps| - 1]).db.records|
  {
    RunSnoc(s, steps);
    RecordsNeverVanish(Run(s, steps[..|steps| - 1]), steps[|steps| - 1]);
  }

  lemma PayoutStepPaidIsLeftExactly(s: State, step: Step, k: nat)
    requires PayoutStep(step) && k < |s.db.records| && s.db.records[k].status == Paid
    ensures k < |Apply(s, step).db.records|
    ensures Apply(s, step).db.records[k].status != Paid <==>
            EventReaches(s, step, k, PayoutReversed) || WritesRecord(s, step, k)
    ensures EventReaches(s, step, k, PayoutReversed) ==> Apply(s, step).db.records[k].status == Reversed
  {
    if !Continues(step) {
      AtOncePaidIsLeftExactly(s, step, k);
    }
  }

  lemma AtOncePaidIsLeftExactly(s: State, step: Step, k: nat)
    requires (step.Send? || step.Review? || step.Webhook?) && k < |s.db.records| && s.db.records[k].status == Paid
    ensures k < |Apply(s, step).db.records|
    ensures Apply(s, step).db.records[k].status != Paid <==>
            EventReaches(s, step, k, PayoutReversed) || WritesRecord(s, step, k)
    ensures EventReaches(s, step, k, PayoutReversed) ==> Apply(s, step).db.records[k].status == Reversed
  {
  }

  /**
   Exactly what takes a record out of PAID: the provider's reversal, and any
   send or review whose handler read the record before it was paid.
   */
  lemma PaidIsLeftExactly(s: State, step: Step, k: nat)
    requires k < |s.db.records| && s.db.records[k].status == Paid
    ensures k < |Apply(s, step).db.records|
    ensures Apply(s, step).db.records[k].status != Paid <==>
            EventReaches(s, step, k, PayoutReversed) || WritesRecord(s, step, k)
    ensures EventReaches(s, step, k, PayoutReversed) ==> Apply(s, step).db.records[k].status == Reversed
  {
    if PayoutStep(step) {
      PayoutStepPaidIsLeftExactly(s, step, k);
    } else {
      OtherStepsKeepRecords(s, step);
    }
  }

  lemma PayoutStepReversedIsLeftOnlyByStaleWrite(s: State, step: Step, k: nat)
    requires PayoutStep(step) && k < |s.db.records| && s.db.records[k].status == Reversed
    ensures k < |Apply(s, step).db.records|
    ensures Apply(s, step).db.records[k].status != Reversed ==> WritesRecord(s, step, k)
    ensures step.WriteSent? && WritesRecord(s, step, k) ==> Apply(s, step).db.records[k].status != Reversed
  {
  }

  /** REVERSED is left only by such a stale write. */
  lemma ReversedIsLeftOnlyByStaleWrite(s: State, step: Step, k: nat)
    requires k < |s.db.records| && s.db.records[k].status == Reversed
    ensures k < |Apply(s, step).db.records|
    ensures Apply(s, step).db.records[k].status != Reversed ==> WritesRecord(s, step, k)
    ensures step.WriteSent? && WritesRecord(s, step, k) ==> Apply(s, step).db.records[k].status != Reversed
  {
    if PayoutStep(step) {
      PayoutStepReversedIsLeftOnlyByStaleWrite(s, step, k);
    } else {
      OtherStepsKeepRecords(s, step);
    }
  }

  /** No send or review is divided by other steps; events still may be. */
  predicate UndividedPayouts(steps: seq<Step>) {
    forall i | 0 <= i < |steps| :: !steps[i].WriteSent? && !steps[i].WriteManual?
  }

  /** With undivided sends and reviews a paid record only ever becomes reversed, and a reversed one stays so. */
  lemma {:induction false} PaidAndReversedAreFinal(s: State, steps: seq<Step>, k: nat)
    requires UndividedPayouts(steps) && k < |s.db.records|
    ensures k < |Run(s, steps).db.records|
    ensures s.db.records[k].status == Paid ==> Run(s, steps).db.records[k].status in {Paid, Reversed}
    ensures s.db.records[k].status == Reversed ==> Run(s, steps).db.records[k].status == Reversed
    decreases |steps|
  {
    if steps != [] {
      if s.db.records[k].status == Paid {
        PaidIsLeftExactly(s, steps[0], k);
      } else if s.db.records[k].status == Reversed {
        ReversedIsLeftOnlyByStaleWrite(s, steps[0], k);
      } else {
        PaidOnlyByWebhook(s, steps[0], k);
      }
      PaidAndReversedAreFinal(Apply(s, steps[0]), steps[1..], k);
    }
  }
}

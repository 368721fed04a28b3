/**
 What every interleaving of the settlement handlers keeps: acceptance against
 claims, releases of earnings, and refunds of claims.
 */
module SettlementSafety {
  import opened Prelude
  import opened Settlement

  // ---------------------------------------------------------------- invariants

  /** Rows point to existing rows, and a claim is only ever raised on a delivered report. */
  ghost predicate RefsOk(db: Db) {
    && (forall c | 0 <= c < |db.claims| ::
          db.claims[c].request < |db.requests| && db.requests[db.claims[c].request].unlocked)
    && (forall f | 0 <= f < |db.refunds| ::
          db.refunds[f].claim < |db.claims| && db.refunds[f].request == db.claims[db.refunds[f].claim].request)
  }

  /** An earning has a release reason once it has been released, and a payout record only after that. */
  predicate EarningOk(e: Earning) {
    && (e.status in {Earned, PendingSettlement, Frozen} ==> e.reason.None? && e.record.None?)
    && (e.status == Available ==> e.reason.Some? && e.record.None?)
    && (e.record.Some? ==> e.reason.Some?)
  }

  ghost predicate EarningsOk(db: Db) {
    forall e | 0 <= e < |db.earnings| :: EarningOk(db.earnings[e])
  }

  /** A request that ever had a claim has nothing left for an acceptance or the sweep to release. */
  ghost predicate NoneHeldAfterClaim(db: Db) {
    forall c, e | 0 <= c < |db.claims| && 0 <= e < |db.earnings| ::
      db.claims[c].request == db.earnings[e].request ==> db.earnings[e].status !in HELD
  }

  ghost predicate NoOpenClaim(db: Db, r: nat) {
    forall c | 0 <= c < |db.claims| && db.claims[c].request == r :: db.claims[c].status != Open
  }

  ghost predicate AcceptedHaveNoOpenClaim(db: Db) {
    forall r | 0 <= r < |db.requests| && db.requests[r].accepted :: NoOpenClaim(db, r)
  }

  /** What the checks made under a row lock still guarantee when the transaction writes. */
  ghost predicate LocksOk(s: State) {
    forall r | r in s.locks ::
      && r < |s.db.requests| && s.db.requests[r].unlocked && NoOpenClaim(s.db, r)
      && (s.locks[r] != Sweeping ==> !s.db.requests[r].accepted)
  }

  ghost predicate OneActiveClaim(db: Db) {
    forall c, d | 0 <= c < |db.claims| && 0 <= d < |db.claims| && c != d ::
      db.claims[c].request == db.claims[d].request && db.claims[c].status.Active() ==> !db.claims[d].status.Active()
  }

  ghost predicate RefundsOk(db: Db) {
    && (forall f, g | 0 <= f < |db.refunds| && 0 <= g < |db.refunds| && f != g ::
          db.refunds[f].claim != db.refunds[g].claim)
    && (forall f | 0 <= f < |db.refunds| && db.refunds[f].request < |db.requests| ::
          db.refunds[f].amount == db.requests[db.refunds[f].request].agreedFee.GetOr(0))
    && (forall c | 0 <= c < |db.claims| :: db.claims[c].status == RefundApproved ==> HasRefund(db, c))
  }

  ghost predicate CallsOk(s: State) {
    forall n | n in s.calls && s.calls[n].Resolving? ::
      s.calls[n].claim < |s.db.claims| && (s.calls[n].seen == RefundApproved ==> HasRefund(s.db, s.calls[n].claim))
  }

  ghost predicate DbOk(db: Db) {
    && RefsOk(db) && EarningsOk(db) && NoneHeldAfterClaim(db) && AcceptedHaveNoOpenClaim(db)
    && OneActiveClaim(db) && RefundsOk(db)
  }

  ghost predicate Inv(s: State) {
    DbOk(s.db) && LocksOk(s) && CallsOk(s)
  }

  /** No claim, refund or payout yet; every earning still held; nothing in flight. */
  ghost predicate Initial(s: State) {
    && s.db.claims == [] && s.db.refunds == [] && s.db.records == []
    && s.locks == map[] && s.calls == map[]
    && (forall r | 0 <= r < |s.db.requests| :: !s.db.requests[r].accepted)
    && (forall e | 0 <= e < |s.db.earnings| ::
          s.db.earnings[e].status in HELD && s.db.earnings[e].reason.None? && s.db.earnings[e].record.None?)
  }

  /** What a transaction that leaves claims, refunds and requests alone does to the earnings. */
  ghost predicate OnlyEarningsMove(a: Db, b: Db) {
    && b.requests == a.requests && b.claims == a.claims && b.refunds == a.refunds
    && |b.earnings| == |a.earnings|
    && forall e | 0 <= e < |a.earnings| ::
         && b.earnings[e].request == a.earnings[e].request
         && (EarningOk(a.earnings[e]) ==> EarningOk(b.earnings[e]))
         && (b.earnings[e].status in HELD ==> a.earnings[e].status in HELD)
  }

  // ------------------------------------------------------- step by step

  lemma PayoutWritesMoveOnlyEarnings(db: Db, k: nat, seen: nat)
    requires k < |db.records|
    ensures OnlyEarningsMove(db, CommitSendFailed(db, k, seen))
    ensures forall pid :: OnlyEarningsMove(db, CommitSent(db, k, seen, pid))
    ensures forall retry :: OnlyEarningsMove(db, CommitManual(db, k, seen, retry))
  {
    forall pid ensures OnlyEarningsMove(db, CommitSent(db, k, seen, pid)) {
    }
  }

  lemma WebhookMovesOnlyEarnings(db: Db, pid: nat, event: PayoutEvent)
    ensures OnlyEarningsMove(db, CommitWebhook(db, pid, event))
  {
  }

  lemma EventStatementsMoveOnlyEarnings(db: Db, k: nat, flag: bool, status: PayStatus)
    ensures OnlyEarningsMove(db, CommitFollow(db, k, flag))
    ensures k < |db.records| ==> OnlyEarningsMove(db, CommitFailing(db, k, flag))
    ensures k < |db.records| ==> OnlyEarningsMove(db, CommitRecordStatus(db, k, status))
  {
  }

  lemma CommitPayoutMovesOnlyEarnings(db: Db, seller: nat, ids: set<nat>, total: nat)
    requires EarningsOk(db)
    ensures OnlyEarningsMove(db, CommitPayout(db, seller, ids, total).0)
  {
  }

  lemma CommitAcceptKeepsDbOk(db: Db, r: nat)
    requires DbOk(db) && r < |db.requests| && NoOpenClaim(db, r)
    ensures DbOk(CommitAccept(db, r))
  {
    var t := CommitAccept(db, r);
    assert forall c | 0 <= c < |db.claims| :: HasRefund(t, c) == HasRefund(db, c);
    assert forall q :: NoOpenClaim(db, q) ==> NoOpenClaim(t, q);
  }

  lemma CommitClaimKeepsDbOk(db: Db, r: nat)
    requires DbOk(db) && r < |db.requests| && db.requests[r].unlocked && !db.requests[r].accepted
    ensures DbOk(CommitClaim(db, r).0)
  {
    var t := CommitClaim(db, r).0;
    assert forall c | 0 <= c < |db.claims| :: HasRefund(t, c) == HasRefund(db, c);
    assert forall q | q != r && NoOpenClaim(db, q) :: NoOpenClaim(t, q);
    if !HasActiveClaim(db, r) {
      forall c | 0 <= c < |t.claims| ensures t.claims[c].status == RefundApproved ==> HasRefund(t, c) {
        assert c < |db.claims| ==> t.claims[c] == db.claims[c];
      }
    }
  }

  lemma ResolveKeepsRefunds(db: Db, c: nat, seen: ClaimStatus, target: ClaimStatus, now: int)
    requires RefsOk(db) && RefundsOk(db) && c < |db.claims|
    requires seen == RefundApproved ==> HasRefund(db, c)
    ensures RefundsOk(CommitResolve(db, c, seen, target, now).0)
    ensures RefundsKept(db, CommitResolve(db, c, seen, target, now).0)
  {
    var t := CommitResolve(db, c, seen, target, now).0;
    PrefixKeepsRefunds(db, t);
    if !ResolveConflicts(db, c, seen, target) && WantsRefund(seen, target) {
      assert t.refunds[|db.refunds|].claim == c;
      assert HasRefund(t, c);
    }
  }

  lemma ResolveKeepsEarnings(db: Db, c: nat, seen: ClaimStatus, target: ClaimStatus, now: int)
    requires RefsOk(db) && EarningsOk(db) && NoneHeldAfterClaim(db) && c < |db.claims|
    ensures var t := CommitResolve(db, c, seen, target, now).0;
            RefsOk(t) && EarningsOk(t) && NoneHeldAfterClaim(t)
  {
  }

  lemma ResolveOpensNothing(db: Db, c: nat, seen: ClaimStatus, target: ClaimStatus, now: int, r: nat)
    requires c < |db.claims| && db.claims[c].request < |db.requests| && target != Open && NoOpenClaim(db, r)
    ensures NoOpenClaim(CommitResolve(db, c, seen, target, now).0, r)
  {
  }

  lemma CommitResolveKeepsDbOk(db: Db, c: nat, seen: ClaimStatus, target: ClaimStatus, now: int)
    requires DbOk(db) && c < |db.claims| && target != Open
    requires seen == RefundApproved ==> HasRefund(db, c)
    ensures DbOk(CommitResolve(db, c, seen, target, now).0)
    ensures RefundsKept(db, CommitResolve(db, c, seen, target, now).0)
  {
    var t := CommitResolve(db, c, seen, target, now).0;
    ResolveKeepsRefunds(db, c, seen, target, now);
    ResolveKeepsEarnings(db, c, seen, target, now);
    ResolveKeepsOneActive(db, c, seen, target, now);
    forall r | 0 <= r < |t.requests| && t.requests[r].accepted ensures NoOpenClaim(t, r) {
      ResolveOpensNothing(db, c, seen, target, now, r);
    }
  }

  lemma ResolveKeepsOneActive(db: Db, c: nat, seen: ClaimStatus, target: ClaimStatus, now: int)
    requires OneActiveClaim(db) && c < |db.claims| && db.claims[c].request < |db.requests| && target != Open
    ensures OneActiveClaim(CommitResolve(db, c, seen, target, now).0)
  {
  }

  lemma CommitRefundKeepsDbOk(db: Db, f: nat, hit: set<nat>)
    requires DbOk(db)
    ensures DbOk(CommitRefund(db, f, hit).0) && RefundsKept(db, CommitRefund(db, f, hit).0)
  {
    var t := CommitRefund(db, f, hit).0;
    PrefixKeepsRefunds(db, t);
    assert forall q :: NoOpenClaim(db, q) ==> NoOpenClaim(t, q);
  }

  lemma RefundStatusKeepsDbOk(db: Db, f: nat, status: RefundStatus)
    requires DbOk(db) && f < |db.refunds|
    ensures var t := db.(refunds := db.refunds[f := db.refunds[f].(status := status)]); DbOk(t) && RefundsKept(db, t)
  {
    var t := db.(refunds := db.refunds[f := db.refunds[f].(status := status)]);
    PrefixKeepsRefunds(db, t);
    assert forall q :: NoOpenClaim(db, q) ==> NoOpenClaim(t, q);
  }

  lemma ReversalKeepsDbOk(db: Db, read: set<nat>)
    requires DbOk(db)
    ensures DbOk(CommitReversal(db, read)) && RefundsKept(db, CommitReversal(db, read))
  {
    assert OnlyEarningsMove(db, CommitReversal(db, read));
    EarningMovesKeepDbOk(db, CommitReversal(db, read));
  }

  lemma CommitRefundRejectKeepsDbOk(db: Db, f: nat)
    requires DbOk(db)
    ensures DbOk(CommitRefundReject(db, f).0) && RefundsKept(db, CommitRefundReject(db, f).0)
  {
    var t := CommitRefundReject(db, f).0;
    PrefixKeepsRefunds(db, t);
    assert forall q :: NoOpenClaim(db, q) ==> NoOpenClaim(t, q);
  }

  /** Refunds are never lost. */
  ghost predicate RefundsKept(a: Db, b: Db) {
    && |a.claims| <= |b.claims|
    && forall c | 0 <= c < |a.claims| && HasRefund(a, c) :: HasRefund(b, c)
  }

  lemma PrefixKeepsRefunds(a: Db, b: Db)
    requires |a.claims| <= |b.claims| && |a.refunds| <= |b.refunds|
    requires forall f | 0 <= f < |a.refunds| :: b.refunds[f].claim == a.refunds[f].claim
    ensures RefundsKept(a, b)
  {
    forall c | 0 <= c < |a.claims| && HasRefund(a, c) ensures HasRefund(b, c) {
      var f :| 0 <= f < |a.refunds| && a.refunds[f].claim == c;
      assert b.refunds[f].claim == c;
    }
  }

  // ------------------------------------------------------- the invariant

  /** What keeps the checks made under other row locks, and the reads in flight, valid. */
  ghost predicate Undisturbed(s: State, t: State, but: Option<nat>) {
    && |s.db.requests| <= |t.db.requests|
    && RefundsKept(s.db, t.db)
    && (forall r | r in t.locks :: r in s.locks && s.locks[r] == t.locks[r] && but != Some(r))
    && (forall r | 0 <= r < |s.db.requests| && but != Some(r) ::
          && (s.db.requests[r].unlocked ==> t.db.requests[r].unlocked)
          && t.db.requests[r].accepted == s.db.requests[r].accepted
          && (NoOpenClaim(s.db, r) ==> NoOpenClaim(t.db, r)))
    && (forall n | n in t.calls && t.calls[n].Resolving? :: n in s.calls && s.calls[n] == t.calls[n])
  }

  lemma UndisturbedKeepsInv(s: State, t: State, but: Option<nat>)
    requires Inv(s) && DbOk(t.db) && Undisturbed(s, t, but)
    ensures Inv(t)
  {
  }

  lemma EarningMovesKeepDbOk(a: Db, b: Db)
    requires DbOk(a) && OnlyEarningsMove(a, b)
    ensures DbOk(b) && RefundsKept(a, b)
    ensures forall r :: NoOpenClaim(a, r) ==> NoOpenClaim(b, r)
  {
    PrefixKeepsRefunds(a, b);
  }

  lemma CaptureKeepsDbOk(db: Db, r: nat, seller: nat, paise: nat)
    requires DbOk(db)
    ensures DbOk(CommitCapture(db, r, seller, paise)) && RefundsKept(db, CommitCapture(db, r, seller, paise))
  {
    var t := CommitCapture(db, r, seller, paise);
    PrefixKeepsRefunds(db, t);
    assert forall q :: NoOpenClaim(db, q) ==> NoOpenClaim(t, q);
  }

  lemma UnlockKeepsDbOk(db: Db, r: nat, now: int)
    requires DbOk(db)
    ensures DbOk(CommitUnlock(db, r, now)) && RefundsKept(db, CommitUnlock(db, r, now))
  {
    var t := CommitUnlock(db, r, now);
    PrefixKeepsRefunds(db, t);
    assert forall q :: NoOpenClaim(db, q) ==> NoOpenClaim(t, q);
  }

  lemma PaymentStepsKeepInv(s: State, step: Step)
    requires Inv(s) && (step.Capture? || step.Unlock?)
    ensures Inv(Apply(s, step))
  {
    var t := Apply(s, step);
    if step.Capture? {
      CaptureKeepsDbOk(s.db, step.r, step.seller, step.paise);
    } else {
      UnlockKeepsDbOk(s.db, step.r, step.now);
    }
    PrefixKeepsRefunds(s.db, t.db);
    assert forall q :: NoOpenClaim(s.db, q) ==> NoOpenClaim(t.db, q);
    UndisturbedKeepsInv(s, t, None);
  }

  lemma StartStepsKeepInv(s: State, step: Step)
    requires Inv(s) && (step.StartAccept? || step.StartClaim? || step.StartSweep?)
    ensures Inv(Apply(s, step))
  {
  }

  lemma FinishLockedKeepsInv(s: State, step: Step)
    requires Inv(s) && step.FinishLocked?
    ensures Inv(Apply(s, step))
  {
    var t, r := Apply(s, step), step.r;
    if r in s.locks {
      match s.locks[r] {
        case Accepting => CommitAcceptKeepsDbOk(s.db, r);
        case Claiming => CommitClaimKeepsDbOk(s.db, r);
        case Sweeping =>
          assert OnlyEarningsMove(s.db, t.db);
          EarningMovesKeepDbOk(s.db, t.db);
      }
      PrefixKeepsRefunds(s.db, t.db);
      assert forall q | q != r && NoOpenClaim(s.db, q) :: NoOpenClaim(t.db, q);
      UndisturbedKeepsInv(s, t, Some(r));
    }
  }

  lemma ResolveStepsKeepInv(s: State, step: Step)
    requires Inv(s) && (step.WriteClaim? || step.Resolve?)
    ensures Inv(Apply(s, step))
  {
    var t := Apply(s, step);
    if step.target != Open && (step.WriteClaim? ==> step.call in s.calls && s.calls[step.call].Resolving?)
         && (step.Resolve? ==> CheckResolve(s.db, step.c) == Ok) {
      var c := if step.WriteClaim? then s.calls[step.call].claim else step.c;
      var seen := if step.WriteClaim? then s.calls[step.call].seen else s.db.claims[c].status;
      assert t.db == CommitResolve(s.db, c, seen, step.target, step.now).0;
      DecisionKeepsInv(s, t, c, seen, step.target, step.now);
    }
  }

  /** A committed decision, whatever its handler saw, as long as an approval seen has its refund. */
  lemma DecisionKeepsInv(s: State, t: State, c: nat, seen: ClaimStatus, target: ClaimStatus, now: int)
    requires Inv(s) && c < |s.db.claims| && target != Open && (seen == RefundApproved ==> HasRefund(s.db, c))
    requires t.db == CommitResolve(s.db, c, seen, target, now).0 && t.locks == s.locks
    requires forall n | n in t.calls && t.calls[n].Resolving? :: n in s.calls && s.calls[n] == t.calls[n]
    ensures Inv(t)
  {
    CommitResolveKeepsDbOk(s.db, c, seen, target, now);
    forall q | NoOpenClaim(s.db, q) ensures NoOpenClaim(t.db, q) {
      ResolveOpensNothing(s.db, c, seen, target, now, q);
    }
    UndisturbedKeepsInv(s, t, None);
  }

  predicate RefundStep(step: Step) {
    || step.ProcessRefund? || step.RejectRefund? || step.TakeRefund?
    || step.ReadEarnings? || step.FinishRefund? || step.ReturnRefund?
  }

  lemma RefundStepsKeepDbOk(s: State, step: Step)
    requires DbOk(s.db) && RefundStep(step)
    ensures DbOk(Apply(s, step).db) && RefundsKept(s.db, Apply(s, step).db)
  {
    if Continues(step) {
      ResumedRefundKeepsDbOk(s, step);
    } else {
      OtherRefundStepsKeepDbOk(s, step);
    }
  }

  lemma ResumedRefundKeepsDbOk(s: State, step: Step)
    requires DbOk(s.db) && (step.ReadEarnings? || step.FinishRefund? || step.ReturnRefund?)
    ensures DbOk(Resume(s, step.call, step).db) && RefundsKept(s.db, Resume(s, step.call, step).db)
  {
    PrefixKeepsRefunds(s.db, s.db);
    if Running(s, step.call) && Resumes(s.calls[step.call], step) {
      RefundWriteKeepsDbOk(s.db, s.calls[step.call], step);
    }
  }

  lemma OtherRefundStepsKeepDbOk(s: State, step: Step)
    requires DbOk(s.db) && (step.ProcessRefund? || step.RejectRefund? || step.TakeRefund?)
    ensures DbOk(Handle(s, step).db) && RefundsKept(s.db, Handle(s, step).db)
  {
    OtherRefundStepsWrite(s, step);
    match step
    case ProcessRefund(f, hit) => CommitRefundKeepsDbOk(s.db, f, hit);
    case RejectRefund(f) => CommitRefundRejectKeepsDbOk(s.db, f);
    case TakeRefund(_, f) =>
      PrefixKeepsRefunds(s.db, s.db);
      CommitRefundTakenKeepsDbOk(s.db, f);
  }

  lemma OtherRefundStepsWrite(s: State, step: Step)
    ensures step.ProcessRefund? ==> Handle(s, step).db == CommitRefund(s.db, step.f, step.hit).0
    ensures step.RejectRefund? ==> Handle(s, step).db == CommitRefundReject(s.db, step.f).0
    ensures step.TakeRefund? ==> Handle(s, step).db == s.db || Handle(s, step).db == CommitRefundTaken(s.db, step.f).0
  {
  }

  lemma CommitRefundTakenKeepsDbOk(db: Db, f: nat)
    requires DbOk(db)
    ensures DbOk(CommitRefundTaken(db, f).0) && RefundsKept(db, CommitRefundTaken(db, f).0)
  {
    PrefixKeepsRefunds(db, db);
    if f < |db.refunds| {
      RefundStatusKeepsDbOk(db, f, RefundDone);
    }
  }

  lemma RefundWriteKeepsDbOk(db: Db, call: Call, step: Step)
    requires DbOk(db) && (call.Refunding? || call.Reversing?) && Resumes(call, step)
    ensures DbOk(WriteBack(db, call, step)) && RefundsKept(db, WriteBack(db, call, step))
  {
    PrefixKeepsRefunds(db, db);
    if call.Reversing? {
      ReversalKeepsDbOk(db, call.read);
    } else if call.refund < |db.refunds| {
      RefundStatusKeepsDbOk(db, call.refund, RefundPending);
    }
  }

  lemma RefundStepsMoveNoClaim(s: State, step: Step)
    requires RefundStep(step)
    ensures var t := Apply(s, step);
            && t.db.requests == s.db.requests && t.db.claims == s.db.claims && t.locks == s.locks
            && forall n | n in t.calls && t.calls[n].Resolving? :: n in s.calls && s.calls[n] == t.calls[n]
  {
  }

  lemma RefundStepsKeepInv(s: State, step: Step)
    requires Inv(s) && RefundStep(step)
    ensures Inv(Apply(s, step))
  {
    var t := Apply(s, step);
    RefundStepsKeepDbOk(s, step);
    RefundStepsMoveNoClaim(s, step);
    assert forall q :: NoOpenClaim(s.db, q) ==> NoOpenClaim(t.db, q);
    UndisturbedKeepsInv(s, t, None);
  }

  predicate PayoutStep(step: Step) {
    || step.WritePayout? || step.WriteSent? || step.Send? || step.WriteManual? || step.Review?
    || step.Webhook? || step.WriteEvent? || step.FinishEvent?
  }

  lemma PayoutStepsMoveOnlyEarnings(s: State, step: Step)
    requires EarningsOk(s.db) && PayoutStep(step)
    ensures OnlyEarningsMove(s.db, Apply(s, step).db)
  {
    if Continues(step) {
      if Running(s, step.call) && Resumes(s.calls[step.call], step) {
        ResumedPayoutMovesOnlyEarnings(s.db, s.calls[step.call], step);
      }
    } else {
      AtOncePayoutMovesOnlyEarnings(s.db, step);
    }
  }

  lemma AtOncePayoutMovesOnlyEarnings(db: Db, step: Step)
    requires step.Send? || step.Review? || step.Webhook?
    ensures step.Send? ==> OnlyEarningsMove(db, SendNow(db, step.k, step.sent))
    ensures step.Review? ==> OnlyEarningsMove(db, ReviewNow(db, step.k, step.retry))
    ensures step.Webhook? ==> OnlyEarningsMove(db, CommitWebhook(db, step.pid, step.event))
  {
    if step.Webhook? {
      WebhookMovesOnlyEarnings(db, step.pid, step.event);
    } else if step.k < |db.records| {
      PayoutWritesMoveOnlyEarnings(db, step.k, db.records[step.k].retries);
    }
  }

  lemma ResumedPayoutMovesOnlyEarnings(db: Db, call: Call, step: Step)
    requires EarningsOk(db) && Resumes(call, step) && !call.Resolving? && !call.Refunding? && !call.Reversing?
    ensures OnlyEarningsMove(db, WriteBack(db, call, step))
  {
    match call
    case RequestingPayout(seller, ids, total) => CommitPayoutMovesOnlyEarnings(db, seller, ids, total);
    case Sending(k, seen) =>
      if k < |db.records| {
        PayoutWritesMoveOnlyEarnings(db, k, seen);
      }
    case Reviewing(k, seen, _) =>
      if k < |db.records| {
        PayoutWritesMoveOnlyEarnings(db, k, seen);
      }
    case Delivering(k, event) => EventStatementsMoveOnlyEarnings(db, k, true, EndStatus(event == PayoutProcessed));
    case Following(k, paid) => EventStatementsMoveOnlyEarnings(db, k, paid, Paid);
    case Failing(k, review) => EventStatementsMoveOnlyEarnings(db, k, review, Paid);
  }

  lemma StepKeepsInv(s: State, step: Step)
    requires Inv(s)
    ensures Inv(Apply(s, step))
  {
    if step.Capture? || step.Unlock? {
      PaymentStepsKeepInv(s, step);
    } else if step.StartAccept? || step.StartClaim? || step.StartSweep? {
      StartStepsKeepInv(s, step);
    } else if step.FinishLocked? {
      FinishLockedKeepsInv(s, step);
    } else if step.Resolve? || step.WriteClaim? {
      ResolveStepsKeepInv(s, step);
    } else if RefundStep(step) {
      RefundStepsKeepInv(s, step);
    } else if PayoutStep(step) {
      PayoutStepsMoveOnlyEarnings(s, step);
      EarningMovesKeepDbOk(s.db, Apply(s, step).db);
      PayoutStepsKeepOthers(s, step);
      UndisturbedKeepsInv(s, Apply(s, step), None);
    } else {
      ReadStepsKeepInv(s, step);
    }
  }

  lemma PayoutStepsKeepOthers(s: State, step: Step)
    requires PayoutStep(step)
    ensures var t := Apply(s, step);
            && t.locks == s.locks
            && forall n | n in t.calls && t.calls[n].Resolving? :: n in s.calls && s.calls[n] == t.calls[n]
  {
  }

  predicate ReadStep(step: Step) {
    || step.ReadClaim? || step.ReadPayout? || step.ReadRecord? || step.ReadManual? || step.Deliver?
    || step.Abandon? || step.RollBack?
  }

  lemma ReadStepsWriteNothing(s: State, step: Step)
    requires ReadStep(step)
    ensures var t := Apply(s, step); t.db == s.db && forall r | r in t.locks :: r in s.locks && t.locks[r] == s.locks[r]
  {
  }

  /** Reads start a call; a resolve call carries the status it saw. */
  lemma ReadStepsKeepInv(s: State, step: Step)
    requires Inv(s)
    requires ReadStep(step)
    ensures Inv(Apply(s, step))
  {
    var t := Apply(s, step);
    ReadStepsWriteNothing(s, step);
    forall n | n in t.calls && t.calls[n].Resolving?
      ensures t.calls[n].claim < |s.db.claims|
      ensures t.calls[n].seen == RefundApproved ==> HasRefund(s.db, t.calls[n].claim)
    {
      if n !in s.calls {
        NewResolveSawClaim(s, step, n);
      }
    }
  }

  lemma NewResolveSawClaim(s: State, step: Step, n: nat)
    requires n in Apply(s, step).calls && n !in s.calls && Apply(s, step).calls[n].Resolving?
    ensures var call := Apply(s, step).calls[n];
            call.claim < |s.db.claims| && s.db.claims[call.claim].status == call.seen
  {
  }

  lemma {:induction false} InvHoldsAlongRuns(s: State, steps: seq<Step>)
    requires Inv(s)
    ensures Inv(Run(s, steps))
    decreases |steps|
  {
    if steps != [] {
      StepKeepsInv(s, steps[0]);
      InvHoldsAlongRuns(Apply(s, steps[0]), steps[1..]);
    }
  }

  lemma InitialIsOk(s: State)
    requires Initial(s)
    ensures Inv(s)
  {
  }
}

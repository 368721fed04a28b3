/**
 The results about acceptance, claims, releases and refunds: what holds under
 every interleaving, what needs each resolve call to run undivided, and what
 goes wrong without that.
 */
module ClaimResults {
  import opened Prelude
  import opened Settlement
  import opened SettlementRules
  import opened SettlementSafety

  // ----------------------------------------------- under every interleaving

  lemma NeverAcceptedWithOpenClaim(s: State, steps: seq<Step>, r: nat, c: nat)
    requires Initial(s)
    ensures var db := Run(s, steps).db;
            r < |db.requests| && db.requests[r].accepted && c < |db.claims| && db.claims[c].request == r ==>
              db.claims[c].status != Open
  {
    InitialIsOk(s);
    InvHoldsAlongRuns(s, steps);
  }

  lemma AtMostOneActiveClaim(s: State, steps: seq<Step>, c: nat, d: nat)
    requires Initial(s)
    ensures var db := Run(s, steps).db;
            c < |db.claims| && d < |db.claims| && c != d && db.claims[c].request == db.claims[d].request ==>
              !(db.claims[c].status.Active() && db.claims[d].status.Active())
  {
    InitialIsOk(s);
    InvHoldsAlongRuns(s, steps);
  }

  predicate NoClaimOn(db: Db, r: nat) {
    forall c | 0 <= c < |db.claims| :: db.claims[c].request != r
  }

  predicate ReleasedBy(s: State, t: State, e: nat) {
    e < |s.db.earnings| && e < |t.db.earnings| &&
    s.db.earnings[e].status != Available && t.db.earnings[e].status == Available
  }

  /** The only three ways an earning becomes payable. */
  ghost predicate LegitimateRelease(s: State, step: Step, e: nat, reason: Reason)
    requires e < |s.db.earnings|
  {
    var earning := s.db.earnings[e];
    match reason
    case BuyerAccepted =>
      && step.FinishLocked? && step.r in s.locks && s.locks[step.r] == Accepting
      && earning.request == step.r && earning.status in {Earned, PendingSettlement} && NoClaimOn(s.db, step.r)
    case ClaimWindowExpired =>
      && step.FinishLocked? && step.r in s.locks && s.locks[step.r] == Sweeping
      && earning.request == step.r && earning.status in {Earned, PendingSettlement} && NoClaimOn(s.db, step.r)
    case ClaimRejected =>
      && (step.Resolve? || step.WriteClaim?) && step.target == Rejected && earning.status == Frozen
  }

  /** A payout step releases nothing and leaves every release reason alone. */
  lemma PayoutStepsReleaseNothing(s: State, step: Step, e: nat)
    requires PayoutStep(step) && e < |s.db.earnings|
    ensures var t := Apply(s, step);
            && |t.db.earnings| == |s.db.earnings|
            && t.db.earnings[e].reason == s.db.earnings[e].reason
            && (t.db.earnings[e].status == Available ==> s.db.earnings[e].status == Available)
  {
  }

  /**
   A release gives the earning its first reason, and the reason names the cause:
   an acceptance or a sweep releases only on a request that has no claim at all
   (so none that is OPEN or UNDER_REVIEW, even if one is resolved while the
   request row is locked), a rejection only what a claim froze.
   */
  lemma ReleaseIsLegitimate(s: State, step: Step, e: nat)
    requires Inv(s) && ReleasedBy(s, Apply(s, step), e)
    ensures s.db.earnings[e].reason.None? && Apply(s, step).db.earnings[e].reason.Some?
    ensures LegitimateRelease(s, step, e, Apply(s, step).db.earnings[e].reason.value)
  {
    assert EarningOk(s.db.earnings[e]);
    if PayoutStep(step) {
      PayoutStepsReleaseNothing(s, step, e);
    } else if step.FinishLocked? {
      assert step.r in s.locks;
    }
  }

  /** Once given, a release reason is never changed and never taken back. */
  lemma ReasonIsKept(s: State, step: Step, e: nat)
    requires Inv(s) && e < |s.db.earnings| && s.db.earnings[e].reason.Some?
    ensures e < |Apply(s, step).db.earnings| && Apply(s, step).db.earnings[e].reason == s.db.earnings[e].reason
    ensures !ReleasedBy(s, Apply(s, step), e)
  {
    assert EarningOk(s.db.earnings[e]);
    if PayoutStep(step) {
      PayoutStepsReleaseNothing(s, step, e);
    }
    if ReleasedBy(s, Apply(s, step), e) {
      ReleaseIsLegitimate(s, step, e);
    }
  }

  /** How often an earning is released along a run. */
  function Releases(s: State, steps: seq<Step>, e: nat): nat
    decreases |steps|
  {
    if steps == [] then 0
    else (if ReleasedBy(s, Apply(s, steps[0]), e) then 1 else 0) + Releases(Apply(s, steps[0]), steps[1..], e)
  }

  lemma {:induction false} NoSecondRelease(s: State, steps: seq<Step>, e: nat)
    requires Inv(s) && e < |s.db.earnings| && s.db.earnings[e].reason.Some?
    ensures Releases(s, steps, e) == 0
    ensures e < |Run(s, steps).db.earnings| && Run(s, steps).db.earnings[e].reason == s.db.earnings[e].reason
    decreases |steps|
  {
    if steps != [] {
      ReasonIsKept(s, steps[0], e);
      StepKeepsInv(s, steps[0]);
      NoSecondRelease(Apply(s, steps[0]), steps[1..], e);
    }
  }

  /** Over every interleaving each earning is released at most once. */
  lemma {:induction false} ReleasedAtMostOnce(s: State, steps: seq<Step>, e: nat)
    requires Inv(s)
    ensures Releases(s, steps, e) <= 1
    decreases |steps|
  {
    if steps != [] {
      var t := Apply(s, steps[0]);
      StepKeepsInv(s, steps[0]);
      if ReleasedBy(s, t, e) {
        ReleaseIsLegitimate(s, steps[0], e);
        NoSecondRelease(t, steps[1..], e);
      } else {
        ReleasedAtMostOnce(t, steps[1..], e);
      }
    }
  }

  /** At most one refund exists per claim, for the agreed fee, and an approved claim has one. */
  lemma OneRefundPerClaim(s: State, steps: seq<Step>)
    requires Initial(s)
    ensures var db := Run(s, steps).db;
            && (forall f, g | 0 <= f < |db.refunds| && 0 <= g < |db.refunds| && f != g ::
                  db.refunds[f].claim != db.refunds[g].claim)
            && (forall f | 0 <= f < |db.refunds| ::
                  && db.refunds[f].claim < |db.claims|
                  && db.refunds[f].request == db.claims[db.refunds[f].claim].request < |db.requests|
                  && db.refunds[f].amount == db.requests[db.refunds[f].request].agreedFee.GetOr(0))
            && (forall c | 0 <= c < |db.claims| && db.claims[c].status == RefundApproved :: HasRefund(db, c))
  {
    InitialIsOk(s);
    InvHoldsAlongRuns(s, steps);
  }

  /**
   A resolve transaction that wants a refund, whatever its handler saw before:
   if the claim has one already, claim, refunds and earnings stay as they were;
   otherwise exactly one is added.
   */
  lemma LosingApprovalChangesNothing(s: State, call: nat, now: int)
    requires Inv(s) && call in s.calls && s.calls[call].Resolving? && s.calls[call].seen != RefundApproved
    ensures var c, t := s.calls[call].claim, Apply(s, WriteClaim(call, RefundApproved, now));
            if HasRefund(s.db, c) then t.db == s.db
            else && t.db.refunds[..|s.db.refunds|] == s.db.refunds && |t.db.refunds| == |s.db.refunds| + 1
                 && t.db.refunds[|s.db.refunds|].claim == c
                 && t.db.claims == s.db.claims[c := s.db.claims[c].(status := RefundApproved)]
                 && t.db.earnings == s.db.earnings
  {
  }

  /** The claim a resolve step is about to reject, if nothing stops it. */
  predicate Rejects(s: State, step: Step, c: nat) {
    c < |s.db.claims| &&
    ((step.Resolve? && step.c == c && step.target == Rejected && CheckResolve(s.db, c) == Ok) ||
     (step.WriteClaim? && step.target == Rejected && step.call in s.calls && s.calls[step.call].Resolving?
      && s.calls[step.call].claim == c))
  }

  /** A frozen earning becomes payable exactly when some claim on its request is rejected: any one of them. */
  lemma FrozenIsReleasedExactlyByRejection(s: State, step: Step, e: nat)
    requires Inv(s) && e < |s.db.earnings| && s.db.earnings[e].status == Frozen
    ensures Apply(s, step).db.earnings[e].status == Available <==>
            exists c: nat :: Rejects(s, step, c) && s.db.claims[c].request == s.db.earnings[e].request
  {
    if PayoutStep(step) {
      PayoutStepsReleaseNothing(s, step, e);
    } else if step.Resolve? || step.WriteClaim? {
      DecisionReleasesFrozenExactly(s, step, e);
    } else {
      OthersReleaseNoFrozen(s, step, e);
    }
  }

  lemma OthersReleaseNoFrozen(s: State, step: Step, e: nat)
    requires e < |s.db.earnings| && s.db.earnings[e].status == Frozen
    requires !PayoutStep(step) && !step.Resolve? && !step.WriteClaim?
    ensures e < |Apply(s, step).db.earnings| && Apply(s, step).db.earnings[e].status != Available
  {
  }

  lemma DecisionReleasesFrozenExactly(s: State, step: Step, e: nat)
    requires Inv(s) && e < |s.db.earnings| && s.db.earnings[e].status == Frozen
    requires step.Resolve? || step.WriteClaim?
    ensures e < |Apply(s, step).db.earnings|
    ensures Apply(s, step).db.earnings[e].status == Available <==>
            exists c: nat :: Rejects(s, step, c) && s.db.claims[c].request == s.db.earnings[e].request
  {
    if step.Resolve? && step.target == Rejected && CheckResolve(s.db, step.c) == Ok {
      assert Rejects(s, step, step.c);
    } else if step.WriteClaim? && step.call in s.calls && s.calls[step.call].Resolving? && step.target == Rejected {
      assert Rejects(s, step, s.calls[step.call].claim);
    }
  }

  // ------------------------------------------------ one of them at a time

  /** The step would start an acceptance, a claim or a sweep of the request. */
  predicate StartsOn(step: Step, r: nat) {
    (step.StartAccept? || step.StartClaim? || step.StartSweep?) && step.r == r
  }

  predicate ActiveOn(db: Db, c: nat, r: nat) {
    c < |db.claims| && db.claims[c].request == r && db.claims[c].status.Active()
  }

  /** The step decides claim c, at once or by a transaction whose handler read it before. */
  predicate Decides(s: State, step: Step, c: nat) {
    || (step.Resolve? && step.c == c && CheckResolve(s.db, c) == Ok && step.target != Open)
    || (step.WriteClaim? && step.call in s.calls && s.calls[step.call].Resolving? && s.calls[step.call].claim == c
        && step.target != Open)
  }

  /** What the handler of a deciding step saw of the claim. */
  function SeenBy(s: State, step: Step, c: nat): ClaimStatus
    requires Decides(s, step, c) && c < |s.db.claims|
  {
    if step.Resolve? then s.db.claims[c].status else s.calls[step.call].seen
  }

  /** The step takes claim c out of OPEN and UNDER_REVIEW. */
  predicate TakesAway(s: State, step: Step, c: nat) {
    c < |s.db.claims| && Decides(s, step, c) && !step.target.Active()
    && !ResolveConflicts(s.db, c, SeenBy(s, step, c), step.target)
  }

  lemma ActiveIsLeftExactly(s: State, step: Step, c: nat, r: nat)
    requires Inv(s) && ActiveOn(s.db, c, r)
    ensures ActiveOn(Apply(s, step).db, c, r) <==> !TakesAway(s, step, c)
  {
    if !step.Resolve? && !step.WriteClaim? {
      OthersKeepClaims(s, step, c);
    }
  }

  /** Only a decision changes a claim. */
  lemma OthersKeepClaims(s: State, step: Step, c: nat)
    requires c < |s.db.claims| && !step.Resolve? && !step.WriteClaim?
    ensures c < |Apply(s, step).db.claims| && Apply(s, step).db.claims[c] == s.db.claims[c]
  {
  }

  ghost predicate TakenAwayAt(s: State, steps: seq<Step>, c: nat, i: nat) {
    i < |steps| && TakesAway(Run(s, steps[..i]), steps[i], c)
  }

  /** An active claim stays active until a decision of the run takes it away. */
  lemma {:induction false} ActiveUntilTakenAway(s: State, steps: seq<Step>, c: nat, r: nat)
    requires Inv(s) && ActiveOn(s.db, c, r)
    ensures ActiveOn(Run(s, steps).db, c, r) || exists i: nat :: TakenAwayAt(s, steps, c, i)
    decreases |steps|
  {
    if steps != [] {
      var init, last := steps[..|steps| - 1], steps[|steps| - 1];
      ActiveUntilTakenAway(s, init, c, r);
      InvHoldsAlongRuns(s, init);
      RunSnoc(s, steps);
      if ActiveOn(Run(s, init).db, c, r) {
        ActiveIsLeftExactly(Run(s, init), last, c, r);
        assert TakesAway(Run(s, init), last, c) ==> TakenAwayAt(s, steps, c, |init|);
      } else {
        var i: nat :| TakenAwayAt(s, init, c, i);
        assert init[..i] == steps[..i];
        assert TakenAwayAt(s, steps, c, i);
      }
    }
  }

  predicate Accepted(db: Db, r: nat) {
    r < |db.requests| && db.requests[r].accepted
  }

  lemma {:induction false} AcceptedStays(s: State, steps: seq<Step>, r: nat)
    requires Accepted(s.db, r)
    ensures Accepted(Run(s, steps).db, r)
    decreases |steps|
  {
    if steps != [] {
      AcceptedStepStays(s, steps[0], r);
      AcceptedStays(Apply(s, steps[0]), steps[1..], r);
    }
  }

  lemma AcceptedStepStays(s: State, step: Step, r: nat)
    requires Accepted(s.db, r)
    ensures Accepted(Apply(s, step).db, r)
  {
    if Continues(step) {
      ResumeKeepsRequests(s, step.call, step);
    }
  }

  /** The step ends the transaction that holds the request's row lock. */
  predicate EndsLock(step: Step, r: nat) {
    step == FinishLocked(r) || step == RollBack(r)
  }

  predicate NoneEnds(steps: seq<Step>, r: nat) {
    forall step | step in steps :: !EndsLock(step, r)
  }

  lemma {:induction false} LockStays(s: State, steps: seq<Step>, r: nat)
    requires r in s.locks && NoneEnds(steps, r)
    ensures r in Run(s, steps).locks && Run(s, steps).locks[r] == s.locks[r]
    ensures r < |s.db.requests| ==>
              r < |Run(s, steps).db.requests| && Run(s, steps).db.requests[r] == s.db.requests[r]
    decreases |steps|
  {
    if steps != [] {
      LockStepStays(s, steps[0], r);
      if r < |s.db.requests| {
        LockedRowStays(s, steps[0], r);
      }
      LockStays(Apply(s, steps[0]), steps[1..], r);
    }
  }

  /** What a handler writes later leaves all requests alone, and the request of every earning and claim. */
  lemma ResumeKeepsRequests(s: State, call: nat, step: Step)
    ensures var (a, b) := (s.db, Resume(s, call, step).db);
            && b.requests == a.requests
            && |b.earnings| == |a.earnings|
            && (forall e | 0 <= e < |a.earnings| :: b.earnings[e].request == a.earnings[e].request)
            && |b.claims| == |a.claims|
            && (forall c | 0 <= c < |a.claims| :: b.claims[c].request == a.claims[c].request)
  {
    if Running(s, call) && Resumes(s.calls[call], step) {
      WriteBackKeepsRequests(s.db, s.calls[call], step);
    }
  }

  lemma WriteBackKeepsRequests(a: Db, call: Call, step: Step)
    requires Resumes(call, step)
    ensures var b := WriteBack(a, call, step);
            && b.requests == a.requests
            && |b.earnings| == |a.earnings|
            && (forall e | 0 <= e < |a.earnings| :: b.earnings[e].request == a.earnings[e].request)
            && |b.claims| == |a.claims|
            && (forall c | 0 <= c < |a.claims| :: b.claims[c].request == a.claims[c].request)
  {
  }

  lemma LockStepStays(s: State, step: Step, r: nat)
    requires r in s.locks && !EndsLock(step, r)
    ensures r in Apply(s, step).locks && Apply(s, step).locks[r] == s.locks[r]
  {
  }

  /** Nobody else changes a request whose row lock is held. */
  lemma LockedRowStays(s: State, step: Step, r: nat)
    requires r in s.locks && !EndsLock(step, r) && r < |s.db.requests|
    ensures r < |Apply(s, step).db.requests| && Apply(s, step).db.requests[r] == s.db.requests[r]
  {
    if Continues(step) {
      ResumeKeepsRequests(s, step.call, step);
    }
  }

  /** What keeps any of the three from starting: the row lock, an acceptance, or an active claim. */
  lemma StartIsBlocked(s: State, step: Step, r: nat)
    requires StartsOn(step, r)
    requires r in s.locks || Accepted(s.db, r) || HasActiveClaim(s.db, r)
    ensures Apply(s, step) == s
  {
  }

  lemma StartTakesLock(s: State, first: Step)
    requires (first.StartAccept? || first.StartClaim?) && Apply(s, first) != s
    ensures var locks := Apply(s, first).locks;
            first.r in locks && locks[first.r] == if first.StartAccept? then Accepting else Claiming
  {
  }

  lemma AcceptanceFinishes(s: State, r: nat)
    requires Inv(s) && r in s.locks && s.locks[r] == Accepting
    ensures Accepted(Apply(s, FinishLocked(r)).db, r)
  {
  }

  /** A claim under its row lock adds its own open claim, unless another became active meanwhile. */
  lemma ClaimFinishes(s: State, r: nat)
    requires Inv(s) && r in s.locks && s.locks[r] == Claiming
    ensures var t := Apply(s, FinishLocked(r));
            && HasActiveClaim(t.db, r)
            && (if HasActiveClaim(s.db, r) then t.db == s.db
                else t.db.claims == s.db.claims + [Claim(r, Open, None)] && ActiveOn(t.db, |s.db.claims|, r))
  {
    var t := Apply(s, FinishLocked(r));
    if !HasActiveClaim(s.db, r) {
      assert t.db.claims[|s.db.claims|] == Claim(r, Open, None);
    }
  }

  /**
   Accept, claim and sweep of a request exclude one another over whole runs. From
   the moment an acceptance or a claim has started, none of the three starts
   while its row lock is held, and the row stays as it was checked, whatever else
   happens (a roll-back, which writes nothing, ends the lock as a finish does).
   After a finished acceptance none ever starts again. After a finished claim
   none starts before a decision has taken that claim, and every other active
   claim on the request, away.
   */
  lemma RaceHasOneWinner(s: State, first: Step, waiting: seq<Step>, after: seq<Step>, second: Step)
    requires Inv(s) && (first.StartAccept? || first.StartClaim?) && Apply(s, first) != s
    requires NoneEnds(waiting, first.r) && StartsOn(second, first.r)
    ensures var held := Run(Apply(s, first), waiting);
            && Apply(held, second) == held
            && first.r < |s.db.requests| && first.r < |held.db.requests|
            && held.db.requests[first.r] == s.db.requests[first.r]
    ensures var done := Apply(Run(Apply(s, first), waiting), FinishLocked(first.r));
            var t := Run(done, after);
            if first.StartAccept? then Accepted(t.db, first.r) && Apply(t, second) == t
            else && HasActiveClaim(done.db, first.r)
                 && (Apply(t, second) != t ==>
                       forall c: nat | ActiveOn(done.db, c, first.r) :: exists i: nat :: TakenAwayAt(done, after, c, i))
  {
    var r, started := first.r, Apply(s, first);
    var held := Run(started, waiting);
    var done := Apply(held, FinishLocked(r));
    StepKeepsInv(s, first);
    InvHoldsAlongRuns(started, waiting);
    StepKeepsInv(held, FinishLocked(r));
    StartTakesLock(s, first);
    LockStays(started, waiting, r);
    StartIsBlocked(held, second, r);
    if first.StartAccept? {
      AcceptanceFinishes(held, r);
      AcceptedStays(done, after, r);
      StartIsBlocked(Run(done, after), second, r);
    } else {
      ClaimFinishes(held, r);
      BlockedUntilTakenAway(done, after, second, r);
    }
  }

  lemma BlockedUntilTakenAway(s: State, steps: seq<Step>, start: Step, r: nat)
    requires Inv(s) && StartsOn(start, r)
    ensures var t := Run(s, steps);
            Apply(t, start) != t ==>
              forall c: nat | ActiveOn(s.db, c, r) :: exists i: nat :: TakenAwayAt(s, steps, c, i)
  {
    var t := Run(s, steps);
    if Apply(t, start) != t {
      forall c: nat | ActiveOn(s.db, c, r) ensures exists i: nat :: TakenAwayAt(s, steps, c, i) {
        ActiveUntilTakenAway(s, steps, c, r);
        if ActiveOn(t.db, c, r) {
          assert HasActiveClaim(t.db, r);
          StartIsBlocked(t, start, r);
        }
      }
    }
  }

  // --------------------------------------------------- who starts what, and when

  /** Step i of the run is the buyer's own acceptance, in the window, with no active claim, and takes the lock. */
  predicate AcceptedAt(s: State, steps: seq<Step>, r: nat, i: nat) {
    i < |steps| && steps[i].StartAccept? && steps[i].r == r && r !in Run(s, steps[..i]).locks
    && MayAccept(Run(s, steps[..i]).db, r, steps[i].user, steps[i].now)
  }

  /** Step i of the run is the buyer's own claim, in the window, on a report not accepted, and takes the lock. */
  predicate ClaimedAt(s: State, steps: seq<Step>, r: nat, i: nat) {
    i < |steps| && steps[i].StartClaim? && steps[i].r == r && r !in Run(s, steps[..i]).locks
    && MayClaim(Run(s, steps[..i]).db, r, steps[i].user, steps[i].now)
  }

  /** Step i of the run is a sweep at or after the deadline, on a report not accepted, and takes the lock. */
  predicate SweptAt(s: State, steps: seq<Step>, r: nat, i: nat) {
    i < |steps| && steps[i].StartSweep? && steps[i].r == r && r !in Run(s, steps[..i]).locks
    && MaySweep(Run(s, steps[..i]).db, r, steps[i].now)
  }

  predicate StartedAt(s: State, steps: seq<Step>, r: nat, op: LockedOp, i: nat) {
    match op
    case Accepting => AcceptedAt(s, steps, r, i)
    case Claiming => ClaimedAt(s, steps, r, i)
    case Sweeping => SweptAt(s, steps, r, i)
  }

  /** The row lock is still the one taken at step i. */
  predicate HeldSince(s: State, steps: seq<Step>, r: nat, op: LockedOp, i: nat) {
    StartedAt(s, steps, r, op, i) && NoneEnds(steps[i + 1..], r)
  }

  /** Started at step i, and finished at step j by the same transaction. */
  predicate DoneAt(s: State, steps: seq<Step>, r: nat, op: LockedOp, i: nat, j: nat) {
    i < j < |steps| && StartedAt(s, steps, r, op, i) && steps[j] == FinishLocked(r)
    && NoneEnds(steps[i + 1..j], r)
  }

  /** Claim c is the one that the claim started at step i inserted at step j. */
  predicate RaisedAt(s: State, steps: seq<Step>, r: nat, c: nat, i: nat, j: nat) {
    DoneAt(s, steps, r, Claiming, i, j) && |Run(s, steps[..j]).db.claims| == c
  }

  /** Requests keep their buyer and fee, and a deadline once set never moves. */
  lemma StepKeepsTerms(s: State, step: Step, r: nat)
    requires r < |s.db.requests|
    ensures r < |Apply(s, step).db.requests|
    ensures var a, b := s.db.requests[r], Apply(s, step).db.requests[r];
            && b.user == a.user && b.agreedFee == a.agreedFee && (a.unlocked ==> b.unlocked)
            && (a.deadline.Some? ==> b.deadline == a.deadline)
            && (a.deadline.None? && b.deadline.Some? ==>
                  step.Unlock? && step.r == r && b.deadline == Some(step.now + 604800000) && b.unlocked)
            && (b.accepted && !a.accepted ==> step == FinishLocked(r) && r in s.locks && s.locks[r] == Accepting)
  {
    if Continues(step) {
      ResumeKeepsRequests(s, step.call, step);
    }
  }

  lemma NewClaimIsLocked(s: State, step: Step, c: nat)
    requires c < |Apply(s, step).db.claims| && c >= |s.db.claims|
    ensures var r := Apply(s, step).db.claims[c].request;
            step == FinishLocked(r) && r in s.locks && s.locks[r] == Claiming && |s.db.claims| == c
  {
    if Continues(step) {
      ResumeKeepsRequests(s, step.call, step);
    }
  }

  lemma ClaimsKeepTheirRequest(s: State, step: Step, c: nat)
    requires c < |s.db.claims|
    ensures c < |Apply(s, step).db.claims| && Apply(s, step).db.claims[c].request == s.db.claims[c].request
  {
    if Continues(step) {
      ResumeKeepsRequests(s, step.call, step);
    }
  }

  lemma NewLockIsStarted(s: State, step: Step, r: nat)
    requires r in Apply(s, step).locks && r !in s.locks
    ensures match Apply(s, step).locks[r]
            case Accepting => step.StartAccept? && step.r == r && MayAccept(s.db, r, step.user, step.now)
            case Claiming => step.StartClaim? && step.r == r && MayClaim(s.db, r, step.user, step.now)
            case Sweeping => step.StartSweep? && step.r == r && MaySweep(s.db, r, step.now)
  {
    if step.StartAccept? || step.StartClaim? || step.StartSweep? {
      ChecksPassExactly(s.db, r, if step.StartSweep? then 0 else step.user, step.now);
    }
  }

  lemma OldLockIsHeld(s: State, step: Step, r: nat)
    requires r in Apply(s, step).locks && r in s.locks
    ensures !EndsLock(step, r) && Apply(s, step).locks[r] == s.locks[r]
  {
  }

  /** A row lock goes back to the start whose checks it passed, with no finish since. */
  lemma {:induction false} LocksWereChecked(s: State, steps: seq<Step>, r: nat)
    requires s.locks == map[]
    ensures var t := Run(s, steps); r in t.locks ==> exists i: nat :: HeldSince(s, steps, r, t.locks[r], i)
    decreases |steps|
  {
    var t := Run(s, steps);
    if steps != [] && r in t.locks {
      var init, last := steps[..|steps| - 1], steps[|steps| - 1];
      var before := Run(s, init);
      LocksWereChecked(s, init, r);
      RunSnoc(s, steps);
      if r in before.locks {
        OldLockIsHeld(before, last, r);
        var i: nat :| HeldSince(s, init, r, t.locks[r], i);
        assert init[..i] == steps[..i] && steps[i + 1..] == init[i + 1..] + [last];
        assert HeldSince(s, steps, r, t.locks[r], i);
      } else {
        NewLockIsStarted(before, last, r);
        assert steps[|init| + 1..] == [];
        assert HeldSince(s, steps, r, t.locks[r], |init|);
      }
    }
  }

  /** What a finish writes was started at an earlier step, and nothing finished in between. */
  lemma FinishHasStart(s: State, steps: seq<Step>, r: nat, op: LockedOp) returns (i: nat)
    requires s.locks == map[] && steps != [] && steps[|steps| - 1] == FinishLocked(r)
    requires var locks := Run(s, steps[..|steps| - 1]).locks; r in locks && locks[r] == op
    ensures DoneAt(s, steps, r, op, i, |steps| - 1)
  {
    var init := steps[..|steps| - 1];
    LocksWereChecked(s, init, r);
    i :| HeldSince(s, init, r, op, i);
    assert init[..i] == steps[..i] && init[i + 1..] == steps[i + 1..|steps| - 1];
  }

  lemma DoneStays(s: State, steps: seq<Step>, r: nat, op: LockedOp, i: nat, j: nat)
    requires steps != [] && DoneAt(s, steps[..|steps| - 1], r, op, i, j)
    ensures DoneAt(s, steps, r, op, i, j)
  {
    var init := steps[..|steps| - 1];
    assert init[..i] == steps[..i] && init[..j] == steps[..j] && init[i + 1..j] == steps[i + 1..j];
  }

  /** Step i of the run released the earning, for one of the three legitimate causes. */
  ghost predicate ReleasedAt(s: State, steps: seq<Step>, e: nat, reason: Reason, i: nat) {
    i < |steps| &&
    var before := Run(s, steps[..i]);
    e < |before.db.earnings| && ReleasedBy(before, Apply(before, steps[i]), e)
    && LegitimateRelease(before, steps[i], e, reason)
  }

  /** A step that gives an earning its reason releases it; a new earning has none. */
  lemma ReasonsComeWithReleases(s: State, step: Step, e: nat)
    requires e < |Apply(s, step).db.earnings| && Apply(s, step).db.earnings[e].reason.Some?
    requires e < |s.db.earnings| ==> s.db.earnings[e].reason.None? && EarningOk(s.db.earnings[e])
    ensures ReleasedBy(s, Apply(s, step), e)
  {
    if e >= |s.db.earnings| {
      NewEarningHasNoReason(s, step, e);
    } else if PayoutStep(step) {
      PayoutStepsReleaseNothing(s, step, e);
    }
  }

  lemma NewEarningHasNoReason(s: State, step: Step, e: nat)
    requires |s.db.earnings| <= e < |Apply(s, step).db.earnings|
    ensures Apply(s, step).db.earnings[e].reason.None?
  {
    if Continues(step) {
      ResumeKeepsRequests(s, step.call, step);
    }
  }

  /**
   Over every interleaving a release reason tells the truth: whoever finds an
   earning with a reason can point to the step of the run that released it, and
   that step is the acceptance, sweep or rejection the reason names.
   */
  lemma {:induction false} ReasonTellsTheCause(s: State, steps: seq<Step>, e: nat)
    requires Inv(s) && (e < |s.db.earnings| ==> s.db.earnings[e].reason.None?)
    ensures var es := Run(s, steps).db.earnings;
            e < |es| && es[e].reason.Some? ==> exists i: nat :: ReleasedAt(s, steps, e, es[e].reason.value, i)
    decreases |steps|
  {
    var t := Run(s, steps);
    if steps != [] && e < |t.db.earnings| && t.db.earnings[e].reason.Some? {
      var init, last := steps[..|steps| - 1], steps[|steps| - 1];
      var before, reason := Run(s, init), t.db.earnings[e].reason.value;
      ReasonTellsTheCause(s, init, e);
      RunSnoc(s, steps);
      InvHoldsAlongRuns(s, init);
      if e < |before.db.earnings| && before.db.earnings[e].reason.Some? {
        ReasonIsKept(before, last, e);
        var i: nat :| ReleasedAt(s, init, e, reason, i);
        assert init[..i] == steps[..i];
        assert ReleasedAt(s, steps, e, reason, i);
      } else {
        assert e < |before.db.earnings| ==> EarningOk(before.db.earnings[e]);
        ReasonsComeWithReleases(before, last, e);
        ReleaseIsLegitimate(before, last, e);
        assert ReleasedAt(s, steps, e, reason, |init|);
      }
    }
  }

  /** An accepted report was accepted by its own buyer, in time, with no active claim at that moment. */
  lemma {:induction false} AcceptedOnlyByBuyerInWindow(s: State, steps: seq<Step>, r: nat)
    requires s.locks == map[] && r < |s.db.requests| && !s.db.requests[r].accepted
    ensures r < |Run(s, steps).db.requests|
    ensures Run(s, steps).db.requests[r].accepted ==> exists i: nat, j: nat :: DoneAt(s, steps, r, Accepting, i, j)
    decreases |steps|
  {
    if steps != [] {
      var init, last := steps[..|steps| - 1], steps[|steps| - 1];
      AcceptedOnlyByBuyerInWindow(s, init, r);
      RunSnoc(s, steps);
      StepKeepsTerms(Run(s, init), last, r);
      if Run(s, init).db.requests[r].accepted {
        var i: nat, j: nat :| DoneAt(s, init, r, Accepting, i, j);
        DoneStays(s, steps, r, Accepting, i, j);
      } else if Run(s, steps).db.requests[r].accepted {
        var i := FinishHasStart(s, steps, r, Accepting);
      }
    }
  }

  /**
   Every claim, also the second and third on a request, was raised by the
   request's own buyer before the deadline, on a report not yet accepted: it has
   a start of its own in the run, and a finish that inserted it.
   */
  lemma {:induction false} ClaimsOnlyByBuyerInWindow(s: State, steps: seq<Step>, c: nat)
    requires Initial(s)
    ensures var db := Run(s, steps).db;
            c < |db.claims| ==> exists i: nat, j: nat :: RaisedAt(s, steps, db.claims[c].request, c, i, j)
    decreases |steps|
  {
    if steps != [] && c < |Run(s, steps).db.claims| {
      var init, last := steps[..|steps| - 1], steps[|steps| - 1];
      RunSnoc(s, steps);
      var before, r := Run(s, init), Run(s, steps).db.claims[c].request;
      if c < |before.db.claims| {
        ClaimsOnlyByBuyerInWindow(s, init, c);
        ClaimsKeepTheirRequest(before, last, c);
        var i: nat, j: nat :| RaisedAt(s, init, r, c, i, j);
        DoneStays(s, steps, r, Claiming, i, j);
        assert init[..j] == steps[..j];
        assert RaisedAt(s, steps, r, c, i, j);
      } else {
        NewClaimIsLocked(before, last, c);
        var i := FinishHasStart(s, steps, r, Claiming);
        assert RaisedAt(s, steps, r, c, i, |init|);
      }
    }
  }

  lemma EarningsKeepTheirRequest(s: State, step: Step, e: nat)
    requires e < |s.db.earnings|
    ensures e < |Apply(s, step).db.earnings| && Apply(s, step).db.earnings[e].request == s.db.earnings[e].request
  {
    if Continues(step) {
      ResumeKeepsRequests(s, step.call, step);
    }
  }

  lemma {:induction false} EarningStaysOnRequest(s: State, steps: seq<Step>, e: nat)
    requires e < |s.db.earnings|
    ensures e < |Run(s, steps).db.earnings| && Run(s, steps).db.earnings[e].request == s.db.earnings[e].request
    decreases |steps|
  {
    if steps != [] {
      EarningsKeepTheirRequest(s, steps[0], e);
      EarningStaysOnRequest(Apply(s, steps[0]), steps[1..], e);
    }
  }

  /** What was done by a prefix of a run was done by the run. */
  lemma PrefixDone(s: State, steps: seq<Step>, n: nat, r: nat, op: LockedOp, i: nat, j: nat)
    requires n <= |steps| && DoneAt(s, steps[..n], r, op, i, j)
    ensures DoneAt(s, steps, r, op, i, j)
  {
    var init := steps[..n];
    assert init[..i] == steps[..i] && init[i + 1..j] == steps[i + 1..j];
  }

  /** The step at which an acceptance or a sweep released an earning finished one that the rules let start. */
  lemma LockedReleaseWasStarted(s: State, steps: seq<Step>, e: nat, reason: Reason, j: nat) returns (i: nat)
    requires Initial(s) && ReleasedAt(s, steps, e, reason, j) && reason != ClaimRejected
    ensures e < |Run(s, steps).db.earnings|
    ensures DoneAt(s, steps, Run(s, steps).db.earnings[e].request,
                   if reason == BuyerAccepted then Accepting else Sweeping, i, j)
  {
    var before, r := Run(s, steps[..j]), steps[j].r;
    var upTo := steps[..j + 1];
    assert upTo[..j] == steps[..j] && upTo[j] == steps[j];
    i := FinishHasStart(s, upTo, r, if reason == BuyerAccepted then Accepting else Sweeping);
    PrefixDone(s, steps, j + 1, r, if reason == BuyerAccepted then Accepting else Sweeping, i, j);
    assert steps == steps[..j] + steps[j..];
    RunConcat(s, steps[..j], steps[j..]);
    EarningStaysOnRequest(before, steps[j..], e);
  }

  /**
   An earning released for an expired window was released by a sweep of its
   request that started at or after the deadline, on a delivered report not
   accepted and without an active claim, and held the row lock to its finish;
   one released for the buyer's acceptance by such an acceptance in the window.
   */
  lemma ReleasedInTime(s: State, steps: seq<Step>, e: nat)
    requires Initial(s)
    ensures var es := Run(s, steps).db.earnings;
            && (e < |es| && es[e].reason == Some(ClaimWindowExpired) ==>
                  exists i: nat, j: nat :: DoneAt(s, steps, es[e].request, Sweeping, i, j)
                                           && ReleasedAt(s, steps, e, ClaimWindowExpired, j))
            && (e < |es| && es[e].reason == Some(BuyerAccepted) ==>
                  exists i: nat, j: nat :: DoneAt(s, steps, es[e].request, Accepting, i, j)
                                           && ReleasedAt(s, steps, e, BuyerAccepted, j))
  {
    var es := Run(s, steps).db.earnings;
    InitialIsOk(s);
    ReasonTellsTheCause(s, steps, e);
    if e < |es| && es[e].reason.Some? && es[e].reason.value != ClaimRejected {
      var j: nat :| ReleasedAt(s, steps, e, es[e].reason.value, j);
      var i := LockedReleaseWasStarted(s, steps, e, es[e].reason.value, j);
    }
  }

  // ------------------------------------- when each resolve call runs undivided

  predicate Undivided(steps: seq<Step>) {
    forall i | 0 <= i < |steps| :: !steps[i].WriteClaim?
  }

  ghost predicate ResolvedAtOk(db: Db) {
    forall c | 0 <= c < |db.claims| :: db.claims[c].resolvedAt.Some? <==> db.claims[c].status.Terminal()
  }

  /** An undivided resolve that goes through. */
  predicate Resolves(s: State, step: Step, c: nat, target: ClaimStatus) {
    step.Resolve? && step.c == c && step.target == target && Apply(s, step).db.claims != s.db.claims
  }

  /** How often the frozen earnings of claim c's request are released by rejecting it. */
  function RejectionReleases(s: State, steps: seq<Step>, c: nat): nat
    decreases |steps|
  {
    if steps == [] then 0
    else (if Resolves(s, steps[0], c, Rejected) then 1 else 0) + RejectionReleases(Apply(s, steps[0]), steps[1..], c)
  }

  lemma UndividedStep(s: State, step: Step, c: nat)
    requires ResolvedAtOk(s.db) && !step.WriteClaim?
    ensures ResolvedAtOk(Apply(s, step).db)
    ensures c < |s.db.claims| ==> c < |Apply(s, step).db.claims|
    ensures c < |s.db.claims| && s.db.claims[c].status.Terminal() ==>
              Apply(s, step).db.claims[c] == s.db.claims[c] && !Resolves(s, step, c, Rejected)
    ensures Resolves(s, step, c, Rejected) ==> Apply(s, step).db.claims[c].status == Rejected
    ensures c < |s.db.claims| && Apply(s, step).db.claims[c].status == Rejected && s.db.claims[c].status != Rejected ==>
              Resolves(s, step, c, Rejected)
    ensures c >= |s.db.claims| && c < |Apply(s, step).db.claims| ==> Apply(s, step).db.claims[c].status == Open
  {
    if !step.Resolve? && !step.FinishLocked? {
      OthersTouchNoClaim(s, step);
    }
  }

  lemma OthersTouchNoClaim(s: State, step: Step)
    requires !step.Resolve? && !step.FinishLocked? && !step.WriteClaim?
    ensures Apply(s, step).db.claims == s.db.claims
  {
  }

  /**
   With undivided resolve calls RESOLVED, REJECTED and REFUND_PROCESSED absorb,
   `resolvedAt` is set exactly in these, and the release on rejection runs at
   most once per claim: exactly once if the claim ends up rejected.
   */
  lemma {:induction false} FinalStatusesAbsorb(s: State, steps: seq<Step>, c: nat)
    requires ResolvedAtOk(s.db) && Undivided(steps)
    ensures var t := Run(s, steps);
            && ResolvedAtOk(t.db)
            && (c < |s.db.claims| ==> c < |t.db.claims|)
            && (c < |s.db.claims| && s.db.claims[c].status.Terminal() ==>
                  t.db.claims[c] == s.db.claims[c] && RejectionReleases(s, steps, c) == 0)
            && ((c < |s.db.claims| ==> s.db.claims[c].status != Rejected) ==>
                  RejectionReleases(s, steps, c) ==
                    if c < |t.db.claims| && t.db.claims[c].status == Rejected then 1 else 0)
    decreases |steps|
  {
    if steps != [] {
      UndividedStep(s, steps[0], c);
      FinalStatusesAbsorb(Apply(s, steps[0]), steps[1..], c);
    }
  }

  // -------------------------------------------- what a stale read can still do

  /**
   A resolve transaction whose claim reached a final status after the handler
   read it: it overwrites that status exactly when it asks for another one and
   no unique key stops it, and `resolvedAt` then stops telling the truth exactly
   when the new status is not final.
   */
  lemma StaleResolveOverwrites(s: State, call: nat, target: ClaimStatus, now: int)
    requires Inv(s) && ResolvedAtOk(s.db) && target != Open
    requires call in s.calls && s.calls[call].Resolving? && s.db.claims[s.calls[call].claim].status.Terminal()
    ensures var c, seen, t := s.calls[call].claim, s.calls[call].seen, Apply(s, WriteClaim(call, target, now));
            && (t.db.claims[c].status != s.db.claims[c].status <==>
                  target != s.db.claims[c].status && !ResolveConflicts(s.db, c, seen, target))
            && (!ResolvedAtOk(t.db) <==> !target.Terminal() && !ResolveConflicts(s.db, c, seen, target))
  {
    var c, seen, t := s.calls[call].claim, s.calls[call].seen, Apply(s, WriteClaim(call, target, now));
    assert t.db.claims[c].resolvedAt.Some? <==> true;
    assert forall d | 0 <= d < |s.db.claims| && d != c :: t.db.claims[d] == s.db.claims[d];
  }

  // Sample states: one delivered report with one held earning, and what follows.

  const REPORT := VRequest(7, true, Some(100), false, Some(10000))

  function Delivered(): State {
    State(Db([REPORT], [], [], [Earning(0, 3, 700000, PendingSettlement, None, None)], []), map[], map[])
  }

  function Claimed(): State {
    State(Db([REPORT], [Claim(0, Open, None)], [], [Earning(0, 3, 700000, Frozen, None, None)], []), map[], map[])
  }

  function RejectedOnce(): State {
    State(Db([REPORT], [Claim(0, Rejected, Some(5))], [],
             [Earning(0, 3, 700000, Available, Some(ClaimRejected), None)], []), map[], map[1 := Resolving(0, Open)])
  }

  function Approved(): State {
    State(Db([REPORT], [Claim(0, RefundApproved, None)], [Refund(0, 0, 10000, RefundPending)],
             [Earning(0, 3, 700000, Frozen, None, None)], []), map[], map[])
  }

  lemma ClaimIsRaised()
    ensures Initial(Delivered()) && Run(Delivered(), [StartClaim(0, 7, 1), FinishLocked(0)]) == Claimed()
  {
    var s1 := Apply(Delivered(), StartClaim(0, 7, 1));
    assert s1.locks == map[0 := Claiming];
    assert Apply(s1, FinishLocked(0)) == Claimed();
    assert [StartClaim(0, 7, 1), FinishLocked(0)][1..] == [FinishLocked(0)];
  }

  lemma BothRead()
    ensures Run(Claimed(), [ReadClaim(0, 0), ReadClaim(1, 0), WriteClaim(0, Rejected, 5)]) == RejectedOnce()
  {
    var s1 := Apply(Claimed(), ReadClaim(0, 0));
    var s2 := Apply(s1, ReadClaim(1, 0));
    assert s2.db == Claimed().db && s2.calls == map[0 := Resolving(0, Open), 1 := Resolving(0, Open)];
    assert Apply(s2, WriteClaim(0, Rejected, 5)) == RejectedOnce();
    var steps := [ReadClaim(0, 0), ReadClaim(1, 0), WriteClaim(0, Rejected, 5)];
    assert steps[1..] == [ReadClaim(1, 0), WriteClaim(0, Rejected, 5)];
    assert steps[1..][1..] == [WriteClaim(0, Rejected, 5)];
  }

  /** Two resolve calls that both read the open claim: a REJECTED claim goes back to UNDER_REVIEW. */
  lemma StaleResolveReopensRejectedClaim(s: State, t: State)
    requires s == Run(Run(Delivered(), [StartClaim(0, 7, 1), FinishLocked(0)]),
                      [ReadClaim(0, 0), ReadClaim(1, 0), WriteClaim(0, Rejected, 5)])
    requires t == Apply(s, WriteClaim(1, UnderReview, 6))
    ensures s.db.claims == [Claim(0, Rejected, Some(5))]
    ensures t.db.claims == [Claim(0, UnderReview, Some(5))]
  {
    ClaimIsRaised();
    BothRead();
  }

  lemma ClaimIsApproved()
    ensures Apply(Claimed(), Resolve(0, RefundApproved, 2)) == Approved()
  {
  }

  function AcceptedWhileApproved(): State {
    Approved().(db := Approved().db.(requests := [REPORT.(accepted := true)]))
  }

  lemma ApprovedIsAccepted()
    ensures Apply(Apply(Approved(), StartAccept(0, 7, 3)), FinishLocked(0)) == AcceptedWhileApproved()
  {
    assert Apply(Approved(), StartAccept(0, 7, 3)).locks == map[0 := Accepting];
  }

  /**
   Acceptance excludes an OPEN claim but not one under review: with the claim
   approved for a refund the buyer may accept, and the claim may then go back
   under review. Every handler runs undivided here.
   */
  lemma AcceptedRequestMayHaveClaimUnderReview(s: State, t: State)
    requires s == Apply(Run(Delivered(), [StartClaim(0, 7, 1), FinishLocked(0)]), Resolve(0, RefundApproved, 2))
    requires t == Apply(Apply(Apply(s, StartAccept(0, 7, 3)), FinishLocked(0)), Resolve(0, UnderReview, 4))
    ensures t.db.requests == [REPORT.(accepted := true)]
    ensures t.db.claims == [Claim(0, UnderReview, None)]
  {
    ClaimIsRaised();
    ClaimIsApproved();
    ApprovedIsAccepted();
  }

  function ClaimedTwice(): State {
    Approved().(db := Approved().db.(claims := [Claim(0, RefundApproved, None), Claim(0, Open, None)]))
  }

  lemma SecondClaimIsRaised()
    ensures Apply(Apply(Approved(), StartClaim(0, 7, 3)), FinishLocked(0)) == ClaimedTwice()
  {
    assert Apply(Approved(), StartClaim(0, 7, 3)).locks == map[0 := Claiming];
  }

  function ReleasedUnderRefund(): State {
    ClaimedTwice().(db := ClaimedTwice().db.(
      claims := [Claim(0, RefundApproved, None), Claim(0, Rejected, Some(4))],
      earnings := [Earning(0, 3, 700000, Available, Some(ClaimRejected), None)]))
  }

  lemma SecondClaimIsRejected()
    ensures Apply(ClaimedTwice(), Resolve(1, Rejected, 4)) == ReleasedUnderRefund()
  {
  }

  /**
   So an approved, still unpaid refund does not keep the expert's earning
   frozen: the buyer may raise a second claim, and rejecting that one releases
   what the first one froze.
   */
  lemma SecondClaimReleasesUnderPendingRefund(s: State, t: State)
    requires s == Apply(Run(Delivered(), [StartClaim(0, 7, 1), FinishLocked(0)]), Resolve(0, RefundApproved, 2))
    requires t == Apply(Apply(Apply(s, StartClaim(0, 7, 3)), FinishLocked(0)), Resolve(1, Rejected, 4))
    ensures s.db.refunds == [Refund(0, 0, 10000, RefundPending)] == t.db.refunds
    ensures s.db.earnings == [Earning(0, 3, 700000, Frozen, None, None)]
    ensures t.db.earnings == [Earning(0, 3, 700000, Available, Some(ClaimRejected), None)]
  {
    ClaimIsRaised();
    ClaimIsApproved();
    SecondClaimIsRaised();
    SecondClaimIsRejected();
  }
}

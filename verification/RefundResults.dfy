/**
 What the claiming of a refund row before the provider call is for, over whole
 runs; and which earnings a refund reverses, by the payments it returns.
 */
module RefundResults {
  import opened Prelude
  import opened Settlement
  import opened SettlementRules
  import opened SettlementSafety
  import L = LedgerReversal

  // ------------------------------------------------------ one refund, one ledger

  predicate IsRefund(call: Call) {
    call.Refunding? || call.Reversing?
  }

  /** A handler is between its statements for refund f. */
  predicate InFlight(s: State, f: nat) {
    exists n | n in s.calls :: IsRefund(s.calls[n]) && s.calls[n].refund == f
  }

  /** At most one handler per refund, and only while the row says it is processed. */
  predicate OneInFlight(s: State) {
    && (forall n | n in s.calls && IsRefund(s.calls[n]) ::
          s.calls[n].refund < |s.db.refunds| && s.db.refunds[s.calls[n].refund].status == RefundDone)
    && (forall m, n | m in s.calls && n in s.calls && m != n && IsRefund(s.calls[m]) && IsRefund(s.calls[n]) ::
          s.calls[m].refund != s.calls[n].refund)
  }

  lemma OthersLeaveRefunds(s: State, step: Step)
    requires !RefundStep(step)
    ensures var t := Apply(s, step);
            && |s.db.refunds| <= |t.db.refunds| && t.db.refunds[..|s.db.refunds|] == s.db.refunds
            && (forall f | |s.db.refunds| <= f < |t.db.refunds| :: t.db.refunds[f].status == RefundPending)
            && (forall n | n in t.calls && IsRefund(t.calls[n]) :: n in s.calls && t.calls[n] == s.calls[n])
  {
    OthersStartNoRefund(s, step);
    if Continues(step) {
      if Running(s, step.call) && Resumes(s.calls[step.call], step) {
        OthersWriteRefunds(s.db, s.calls[step.call], step);
      }
    } else {
      OthersHandleRefunds(s, step);
    }
  }

  lemma OthersHandleRefunds(s: State, step: Step)
    requires !RefundStep(step)
    ensures var t := Handle(s, step);
            && |s.db.refunds| <= |t.db.refunds| && t.db.refunds[..|s.db.refunds|] == s.db.refunds
            && (forall f | |s.db.refunds| <= f < |t.db.refunds| :: t.db.refunds[f].status == RefundPending)
  {
  }

  lemma OthersWriteRefunds(db: Db, call: Call, step: Step)
    requires !RefundStep(step) && Resumes(call, step)
    ensures var t := WriteBack(db, call, step);
            && |db.refunds| <= |t.refunds| && t.refunds[..|db.refunds|] == db.refunds
            && (forall f | |db.refunds| <= f < |t.refunds| :: t.refunds[f].status == RefundPending)
  {
  }

  lemma OthersStartNoRefund(s: State, step: Step)
    requires !RefundStep(step)
    ensures var t := Apply(s, step);
            forall n | n in t.calls && IsRefund(t.calls[n]) :: n in s.calls && t.calls[n] == s.calls[n]
  {
  }

  /** No other step ends a refund's handler, either, unless it stops. */
  lemma OthersEndNoRefund(s: State, step: Step)
    requires !RefundStep(step) && !step.Abandon?
    ensures var t := Apply(s, step);
            forall n | n in s.calls && IsRefund(s.calls[n]) :: n in t.calls && t.calls[n] == s.calls[n]
  {
  }

  lemma StepKeepsOneInFlight(s: State, step: Step)
    requires OneInFlight(s)
    ensures OneInFlight(Apply(s, step))
  {
    if !RefundStep(step) {
      OthersLeaveRefunds(s, step);
    } else if Continues(step) {
      ResumedRefundKeepsOne(s, step.call, step);
    } else {
      NewRefundIsOnly(s, step);
    }
  }

  lemma ResumedRefundKeepsOne(s: State, call: nat, step: Step)
    requires OneInFlight(s) && (step.ReadEarnings? || step.FinishRefund? || step.ReturnRefund?)
    ensures OneInFlight(Resume(s, call, step))
  {
    var t := Resume(s, call, step);
    forall n | n in t.calls && IsRefund(t.calls[n])
      ensures n in s.calls && IsRefund(s.calls[n]) && t.calls[n].refund == s.calls[n].refund
      ensures t.calls[n].refund < |t.db.refunds| && t.db.refunds[t.calls[n].refund].status == RefundDone
    {
    }
  }

  /** Taking a refund needs it pending, so nobody is on it. */
  lemma NewRefundIsOnly(s: State, step: Step)
    requires OneInFlight(s) && (step.ProcessRefund? || step.RejectRefund? || step.TakeRefund?)
    ensures OneInFlight(Apply(s, step))
  {
  }

  /** The step commits refund f's ledger transaction. */
  predicate Commits(s: State, step: Step, f: nat) {
    || (step.ProcessRefund? && step.f == f && CommitRefund(s.db, f, step.hit).1 == Ok)
    || (step.FinishRefund? && step.call in s.calls && s.calls[step.call].Reversing? && s.calls[step.call].refund == f)
  }

  /** The handler of refund f stops between its statements. */
  predicate Drops(s: State, step: Step, f: nat) {
    step.Abandon? && step.call in s.calls && IsRefund(s.calls[step.call]) && s.calls[step.call].refund == f
  }

  function LedgerCommits(s: State, steps: seq<Step>, f: nat): nat
    decreases |steps|
  {
    if steps == [] then 0
    else (if Commits(s, steps[0], f) then 1 else 0) + LedgerCommits(Apply(s, steps[0]), steps[1..], f)
  }

  /** Processed or rejected, and no handler on it: nothing can commit any more. */
  predicate Over(s: State, f: nat) {
    f < |s.db.refunds| && s.db.refunds[f].status != RefundPending && !InFlight(s, f)
  }

  predicate Processed(s: State, f: nat) {
    Over(s, f) && s.db.refunds[f].status == RefundDone
  }

  lemma OverStays(s: State, step: Step, f: nat)
    requires OneInFlight(s) && Over(s, f)
    ensures Over(Apply(s, step), f) && !Commits(s, step, f)
    ensures Apply(s, step).db.refunds[f].status == s.db.refunds[f].status
  {
    if !RefundStep(step) {
      OthersLeaveRefunds(s, step);
    }
  }

  lemma CommitIsOver(s: State, step: Step, f: nat)
    requires OneInFlight(s) && Commits(s, step, f)
    ensures Processed(Apply(s, step), f) && !Processed(s, f)
  {
    if step.FinishRefund? {
      assert InFlight(s, f);
    }
  }

  /** Unless its handler stops, a refund is processed and left alone only by its ledger transaction. */
  lemma OnlyCommitsProcess(s: State, step: Step, f: nat)
    requires OneInFlight(s) && !Processed(s, f) && !Commits(s, step, f) && !Drops(s, step, f)
    ensures !Processed(Apply(s, step), f)
  {
    if RefundStep(step) {
      RefundStepProcessesNothing(s, step, f);
    } else {
      OthersLeaveRefunds(s, step);
      if n :| n in s.calls && IsRefund(s.calls[n]) && s.calls[n].refund == f {
        if !step.Abandon? {
          OthersEndNoRefund(s, step);
        }
        assert n in Apply(s, step).calls && Apply(s, step).calls[n] == s.calls[n];
      }
    }
  }

  lemma RefundStepProcessesNothing(s: State, step: Step, f: nat)
    requires OneInFlight(s) && RefundStep(step) && !Processed(s, f) && !Commits(s, step, f)
    ensures !Processed(Apply(s, step), f)
  {
    if Continues(step) {
      ResumedRefundProcessesNothing(s, step.call, step, f);
    } else if n :| n in s.calls && IsRefund(s.calls[n]) && s.calls[n].refund == f {
      assert n in Apply(s, step).calls && Apply(s, step).calls[n] == s.calls[n];
    } else if step.TakeRefund? && step.f == f && Apply(s, step) != s {
      assert Apply(s, step).calls[step.call] == Refunding(f);
    }
  }

  /** It stays in flight, or goes back to being pending. */
  lemma ResumedRefundProcessesNothing(s: State, call: nat, step: Step, f: nat)
    requires OneInFlight(s) && (step.ReadEarnings? || step.FinishRefund? || step.ReturnRefund?) && !Processed(s, f)
    requires !(step.FinishRefund? && Running(s, call) && s.calls[call].Reversing? && s.calls[call].refund == f)
    ensures !Processed(Resume(s, call, step), f)
  {
    var t := Resume(s, call, step);
    if n :| n in s.calls && IsRefund(s.calls[n]) && s.calls[n].refund == f {
      assert t.db.refunds[f].status == RefundPending ||
             (n in t.calls && IsRefund(t.calls[n]) && t.calls[n].refund == f);
    }
  }

  predicate NeverDropped(s: State, steps: seq<Step>, f: nat)
    decreases |steps|
  {
    steps == [] || (!Drops(s, steps[0], f) && NeverDropped(Apply(s, steps[0]), steps[1..], f))
  }

  /**
   Along every run, with any number of handlers processing, taking, returning and
   rejecting the same refund, its ledger transaction commits at most once. If no
   handler of it stops half-way, it has committed exactly when the refund ends
   processed with no handler on it.
   */
  lemma {:induction false} RefundCommitsOnce(s: State, steps: seq<Step>, f: nat)
    requires OneInFlight(s)
    ensures OneInFlight(Run(s, steps))
    ensures LedgerCommits(s, steps, f) <= if Over(s, f) then 0 else 1
    ensures NeverDropped(s, steps, f) ==>
              (Processed(Run(s, steps), f) <==> Processed(s, f) || LedgerCommits(s, steps, f) == 1)
    decreases |steps|
  {
    if steps != [] {
      StepKeepsOneInFlight(s, steps[0]);
      RefundCommitsOnce(Apply(s, steps[0]), steps[1..], f);
      if Over(s, f) {
        OverStays(s, steps[0], f);
      } else if Commits(s, steps[0], f) {
        CommitIsOver(s, steps[0], f);
      } else if !Drops(s, steps[0], f) {
        OnlyCommitsProcess(s, steps[0], f);
      }
    }
  }

  // ------------------------------------------- which earnings a refund reverses

  /** `behind[i]` is the earning of payment i: those of the payments that the refund reaches. */
  function HitBy(ps: seq<L.Payment>, paise: nat, behind: seq<nat>): set<nat>
    requires |behind| == |ps|
  {
    set i | 0 <= i < |ps| && L.ReversedAt(ps, paise, i) > 0 :: behind[i]
  }

  ghost predicate OneEach(behind: seq<nat>) {
    forall i, j | 0 <= i < j < |behind| :: behind[i] != behind[j]
  }

  /**
   The earning of payment i is reversed exactly when its status allows, the
   payment is open and the refund exceeds what the older open payments are worth.
   */
  lemma {:induction false} ReversedExactlyIfReached(db: Db, f: nat, ps: seq<L.Payment>, paise: nat,
                                                    behind: seq<nat>, i: nat)
    requires L.PaymentsOk(ps) && |behind| == |ps| && OneEach(behind) && i < |ps|
    requires f < |db.refunds| && db.refunds[f].status == RefundPending && behind[i] < |db.earnings|
    requires db.earnings[behind[i]].request == db.refunds[f].request
    ensures var (was, after) := (db.earnings[behind[i]], CommitRefund(db, f, HitBy(ps, paise, behind)).0);
            after.earnings[behind[i]] ==
            if MayReverse(was.status) && ps[i].status == L.Recorded && ps[i].hasOrder && L.Total(ps, i) < paise
            then was.(status := Reversed) else was
  {
    L.ReachedExactly(ps, paise, i);
    var hit := HitBy(ps, paise, behind);
    if behind[i] in hit {
      var j :| 0 <= j < |ps| && L.ReversedAt(ps, paise, j) > 0 && behind[j] == behind[i];
      assert j == i;
    }
  }

  /** What the expert could still be paid for. */
  predicate Payable(e: Earning) {
    e.status == Earned || e.status == PendingSettlement || e.status == Frozen || e.status == Available
  }

  /**
   A refund of all that is still open on a request leaves none of its earnings
   held, frozen or available.
   */
  lemma {:induction false} FullRefundLeavesNothingPayable(db: Db, f: nat, ps: seq<L.Payment>, paise: nat,
                                                          behind: seq<nat>, e: nat)
    requires L.PaymentsOk(ps) && |behind| == |ps| && paise >= L.Total(ps, |ps|)
    requires f < |db.refunds| && db.refunds[f].status == RefundPending && e < |db.earnings|
    requires db.earnings[e].request == db.refunds[f].request
    requires Payable(db.earnings[e]) ==> exists i :: 0 <= i < |ps| && behind[i] == e && L.Eligible(ps[i])
    ensures !Payable(CommitRefund(db, f, HitBy(ps, paise, behind)).0.earnings[e])
  {
    if Payable(db.earnings[e]) {
      var i :| 0 <= i < |ps| && behind[i] == e && L.Eligible(ps[i]);
      L.ReachedExactly(ps, paise, i);
      L.TotalsGrow(ps, i, |ps|);
      L.TotalsGrow(ps, i + 1, |ps|);
      assert e in HitBy(ps, paise, behind);
    }
  }
}

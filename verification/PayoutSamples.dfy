/** Runs from a delivered report on which payouts go wrong. */
module PayoutSamples {
  import opened Prelude
  import opened Settlement
  import opened ClaimResults
  import opened PayoutStatus
  import opened PayoutRetries

  /** Claimed, approved, claimed again, rejected, and requested for payout. */
  const RAISE := [StartClaim(0, 7, 1), FinishLocked(0)]
  const RELEASE := [Resolve(0, RefundApproved, 2), StartClaim(0, 7, 3), FinishLocked(0), Resolve(1, Rejected, 4)]
  const REQUEST := [ReadPayout(0, 3), WritePayout(0)]

  /** What a delivered report reaches on these steps. */
  function ReachPayout(): State {
    Run(Delivered(), RAISE + (RELEASE + REQUEST))
  }

  const RELEASED := Earning(0, 3, 700000, Requested, Some(ClaimRejected), Some(0))

  /** The released earning, joined to a payout record and not sent yet; a refund is still pending. */
  function PayoutRequested(): State {
    ReleasedUnderRefund().(db := ReleasedUnderRefund().db.(
      earnings := [RELEASED], records := [Record(3, 700000, Requested, 0, None)]))
  }

  lemma RunTwo(s: State, a: Step, b: Step)
    ensures Run(s, [a, b]) == Apply(Apply(s, a), b)
  {
    assert [a, b] == [a] + [b];
    RunConcat(s, [a], [b]);
    RunOne(s, a);
    RunOne(Apply(s, a), b);
  }

  lemma ReleaseRuns()
    ensures Run(Claimed(), RELEASE) == ReleasedUnderRefund()
  {
    ClaimIsApproved();
    SecondClaimIsRaised();
    SecondClaimIsRejected();
    var r, c := Resolve(0, RefundApproved, 2), [StartClaim(0, 7, 3), FinishLocked(0)];
    assert RELEASE == [r] + (c + [Resolve(1, Rejected, 4)]);
    RunConcat(Claimed(), [r], c + [Resolve(1, Rejected, 4)]);
    RunOne(Claimed(), r);
    RunConcat(Approved(), c, [Resolve(1, Rejected, 4)]);
    RunTwo(Approved(), c[0], c[1]);
    RunOne(ClaimedTwice(), Resolve(1, Rejected, 4));
  }

  lemma RequestRuns()
    ensures Run(ReleasedUnderRefund(), REQUEST) == PayoutRequested()
  {
    var s := ReleasedUnderRefund();
    assert Claimable(s.db.earnings, 3) == {0};
    assert SumOf(s.db.earnings, {0}, 1) == SumOf(s.db.earnings, {0}, 0) + 700000;
    assert Apply(s, ReadPayout(0, 3)).calls == map[0 := RequestingPayout(3, {0}, 700000)];
    RunTwo(s, ReadPayout(0, 3), WritePayout(0));
  }

  lemma PayoutIsRequested()
    ensures ReachPayout() == PayoutRequested()
  {
    ClaimIsRaised();
    ReleaseRuns();
    RequestRuns();
    RunConcat(Delivered(), RAISE, RELEASE + REQUEST);
    RunConcat(Claimed(), RELEASE, REQUEST);
  }

  /** Two sends read one requested record: the faster one is paid, the slower one makes it RETRYABLE again. */
  lemma SlowSendUndoesPaid(s: State)
    requires s == Apply(Apply(Apply(ReachPayout(), ReadRecord(4, 0)), Send(0, Some(1))), Webhook(1, PayoutProcessed))
    ensures s.db.records == [Record(3, 700000, Paid, 0, Some(1))]
    ensures Apply(s, WriteSent(4, Some(2))).db.records == [Record(3, 700000, Retryable, 1, Some(1))]
  {
    PayoutIsRequested();
    var s1 := Apply(PayoutRequested(), ReadRecord(4, 0));
    assert s1.calls == map[4 := Sending(0, 0)];
    var s2 := Apply(s1, Send(0, Some(1)));
    assert s2.db.records == [Record(3, 700000, Processing, 0, Some(1))] && s2.calls == s1.calls;
    SlowSendReturns(s2, s);
  }

  lemma SlowSendReturns(sent: State, s: State)
    requires sent.db.records == [Record(3, 700000, Processing, 0, Some(1))] && sent.calls == map[4 := Sending(0, 0)]
    requires s == Apply(sent, Webhook(1, PayoutProcessed))
    ensures s.db.records == [Record(3, 700000, Paid, 0, Some(1))]
    ensures Apply(s, WriteSent(4, Some(2))).db.records == [Record(3, 700000, Retryable, 1, Some(1))]
  {
    assert s.db.records == [Record(3, 700000, Paid, 0, Some(1))] && s.calls == sent.calls;
  }

  /**
   A refund that reverses an earning waiting for a payout retry does not stop
   the payout: the retried record still pays the full total, and the reversed
   earning ends as PAID.
   */
  lemma RefundedEarningIsStillPaid(s: State, t: State)
    requires s == Apply(ReachPayout(), Send(0, None)) && t == Apply(s, ProcessRefund(0, {0}))
    ensures s.db.earnings == [RELEASED.(status := Retryable)]
    ensures Agree(s.db) && ReversesJoined(s, ProcessRefund(0, {0}), 0, 0)
    ensures t.db.earnings == [RELEASED.(status := Reversed)]
    ensures t.db.records == s.db.records == [Record(3, 700000, Retryable, 1, None)]
    ensures var u := Apply(Apply(t, Send(0, Some(2))), Webhook(2, PayoutProcessed));
            && u.db.records == [Record(3, 700000, Paid, 1, Some(2))]
            && u.db.earnings == [RELEASED.(status := Paid)]
  {
    PayoutIsRequested();
    assert s == FailedOnce();
    RefundReverses();
    RetryIsPaid();
  }

  function FailedOnce(): State {
    PayoutRequested().(db := PayoutRequested().db.(
      earnings := [RELEASED.(status := Retryable)], records := [Record(3, 700000, Retryable, 1, None)]))
  }

  function Refunded(): State {
    FailedOnce().(db := FailedOnce().db.(
      earnings := [RELEASED.(status := Reversed)], refunds := [Refund(0, 0, 10000, RefundDone)]))
  }

  lemma RefundReverses()
    ensures Apply(FailedOnce(), ProcessRefund(0, {0})) == Refunded()
  {
  }

  lemma RetryIsPaid()
    ensures var u := Apply(Apply(Refunded(), Send(0, Some(2))), Webhook(2, PayoutProcessed));
            && u.db.records == [Record(3, 700000, Paid, 1, Some(2))]
            && u.db.earnings == [RELEASED.(status := Paid)]
  {
    var u := Apply(Refunded(), Send(0, Some(2)));
    assert u.db.records == [Record(3, 700000, Processing, 1, Some(2))];
    assert u.db.earnings == [RELEASED.(status := Processing)];
  }

  /** A refund has read the earning as RETRYABLE; the retry has been paid since. */
  function PaidMeanwhile(): State {
    PayoutRequested().(db := PayoutRequested().db.(
      refunds := [Refund(0, 0, 10000, RefundDone)],
      earnings := [RELEASED.(status := Paid)], records := [Record(3, 700000, Paid, 1, Some(2))]),
                       calls := map[6 := Reversing(0, {0})])
  }

  lemma RefundReadsRetryable()
    ensures Apply(Apply(FailedOnce(), TakeRefund(6, 0)), ReadEarnings(6, {0})) ==
            FailedOnce().(db := FailedOnce().db.(refunds := [Refund(0, 0, 10000, RefundDone)]),
                          calls := map[6 := Reversing(0, {0})])
  {
    var s := Apply(FailedOnce(), TakeRefund(6, 0));
    assert s.calls == map[6 := Refunding(0)];
    assert Reversible(s.db, 0, {0}) == {0};
    assert map[6 := Refunding(0)][6 := Reversing(0, {0})] == map[6 := Reversing(0, {0})];
  }

  lemma RetryIsPaidMeanwhile(s: State)
    requires s == FailedOnce().(db := FailedOnce().db.(refunds := [Refund(0, 0, 10000, RefundDone)]),
                                calls := map[6 := Reversing(0, {0})])
    ensures Apply(Apply(s, Send(0, Some(2))), Webhook(2, PayoutProcessed)) == PaidMeanwhile()
  {
    var u := Apply(s, Send(0, Some(2)));
    assert u.db.records == [Record(3, 700000, Processing, 1, Some(2))];
    assert u.db.earnings == [RELEASED.(status := Processing)];
  }

  lemma RefundWritesLate()
    ensures Apply(PaidMeanwhile(), FinishRefund(6)) ==
            State(PaidMeanwhile().db.(earnings := [RELEASED.(status := Reversed)]), map[], map[])
    ensures ReversesJoined(PaidMeanwhile(), FinishRefund(6), 0, 0)
  {
    assert map[6 := Reversing(0, {0})] - {6} == map[];
  }

  /**
   A refund that reads the earning as RETRYABLE and writes after the retry has
   been confirmed: the record stays PAID with its earning REVERSED, and
   delivering the confirmation again changes nothing.
   */
  lemma LateReversalOfPaidEarning(s: State, t: State)
    requires s == Apply(Apply(Apply(ReachPayout(), Send(0, None)), TakeRefund(6, 0)), ReadEarnings(6, {0}))
    requires t == Apply(Apply(Apply(s, Send(0, Some(2))), Webhook(2, PayoutProcessed)), FinishRefund(6))
    ensures Breaks(Apply(Apply(s, Send(0, Some(2))), Webhook(2, PayoutProcessed)), FinishRefund(6))
    ensures t.db.records == [Record(3, 700000, Paid, 1, Some(2))]
    ensures t.db.earnings == [RELEASED.(status := Reversed)]
    ensures t.calls == map[] && Apply(t, Webhook(2, PayoutProcessed)) == t
  {
    PayoutIsRequested();
    assert Apply(PayoutRequested(), Send(0, None)) == FailedOnce();
    RefundReadsRetryable();
    RetryIsPaidMeanwhile(s);
    RefundWritesLate();
    assert FindRecord(t.db.records, 2) == Some(0);
    EventIsIgnored(t, 2, PayoutProcessed, 0);
  }

  // A refund has read the earning as available; it joins a payout record before the refund writes.

  function AvailableRead(): State {
    ReleasedUnderRefund().(db := ReleasedUnderRefund().db.(refunds := [Refund(0, 0, 10000, RefundDone)]),
                           calls := map[6 := Reversing(0, {0})])
  }

  lemma RefundReadsAvailable()
    ensures Apply(Apply(ReleasedUnderRefund(), TakeRefund(6, 0)), ReadEarnings(6, {0})) == AvailableRead()
  {
    var s := Apply(ReleasedUnderRefund(), TakeRefund(6, 0));
    assert s.calls == map[6 := Refunding(0)];
    assert Reversible(s.db, 0, {0}) == {0};
    assert map[6 := Refunding(0)][6 := Reversing(0, {0})] == map[6 := Reversing(0, {0})];
  }

  function JoinedMeanwhile(): State {
    AvailableRead().(db := AvailableRead().db.(
      earnings := [RELEASED], records := [Record(3, 700000, Requested, 0, None)]))
  }

  lemma RequestComesBetween()
    ensures Apply(Apply(AvailableRead(), ReadPayout(0, 3)), WritePayout(0)) == JoinedMeanwhile()
  {
    var s := AvailableRead();
    assert Claimable(s.db.earnings, 3) == {0};
    assert SumOf(s.db.earnings, {0}, 1) == SumOf(s.db.earnings, {0}, 0) + 700000;
    var u := Apply(s, ReadPayout(0, 3));
    assert u.calls == map[6 := Reversing(0, {0}), 0 := RequestingPayout(3, {0}, 700000)];
    assert u.calls - {0} == s.calls;
  }

  lemma RefundWritesOverRequest()
    ensures Apply(JoinedMeanwhile(), FinishRefund(6)).db.earnings == [RELEASED.(status := Reversed)]
    ensures Apply(JoinedMeanwhile(), FinishRefund(6)).db.records == JoinedMeanwhile().db.records
    ensures ReversesJoined(JoinedMeanwhile(), FinishRefund(6), 0, 0)
  {
  }

  /** The record waits to be sent for the full total with its earning REVERSED. */
  lemma LateReversalOfRequestedEarning(s: State, t: State)
    requires s == Apply(Apply(Run(Delivered(), RAISE + RELEASE), TakeRefund(6, 0)), ReadEarnings(6, {0}))
    requires t == Apply(Apply(Apply(s, ReadPayout(0, 3)), WritePayout(0)), FinishRefund(6))
    ensures Breaks(Apply(Apply(s, ReadPayout(0, 3)), WritePayout(0)), FinishRefund(6))
    ensures t.db.records == [Record(3, 700000, Requested, 0, None)]
    ensures t.db.earnings == [RELEASED.(status := Reversed)]
  {
    ClaimIsRaised();
    ReleaseRuns();
    RunConcat(Delivered(), RAISE, RELEASE);
    RefundReadsAvailable();
    RequestComesBetween();
    RefundWritesOverRequest();
  }

  function BeingProcessed(): State {
    PayoutRequested().(db := PayoutRequested().db.(
      earnings := [RELEASED.(status := Processing)], records := [Record(3, 700000, Processing, 0, Some(1))]))
  }

  /** The confirmation has settled the record, not yet the earning. */
  function HalfPaid(): State {
    BeingProcessed().(db := BeingProcessed().db.(records := [Record(3, 700000, Paid, 0, Some(1))]),
                      calls := map[4 := Following(0, true)])
  }

  lemma ConfirmationStarts()
    ensures Apply(Apply(Apply(ReachPayout(), Send(0, Some(1))), Deliver(4, 1, PayoutProcessed)), WriteEvent(4))
            == HalfPaid()
  {
    PayoutIsRequested();
    assert Apply(PayoutRequested(), Send(0, Some(1))) == BeingProcessed();
    assert FindRecord(BeingProcessed().db.records, 1) == Some(0);
    var s := Apply(BeingProcessed(), Deliver(4, 1, PayoutProcessed));
    assert s.calls == map[4 := Delivering(0, PayoutProcessed)];
    assert map[4 := Delivering(0, PayoutProcessed)][4 := Following(0, true)] == map[4 := Following(0, true)];
  }

  /** An event that finds its record in another status than it needs changes nothing. */
  lemma EventIsIgnored(s: State, pid: nat, event: PayoutEvent, k: nat)
    requires FindRecord(s.db.records, pid) == Some(k)
    requires s.db.records[k].status != if event == PayoutReversed then Paid else Processing
    ensures Apply(s, Webhook(pid, event)) == s
  {
  }

  /** Settled by a reversal while the confirmation has yet to finish. */
  function ReversedMeanwhile(): State {
    HalfPaid().(db := HalfPaid().db.(
      earnings := [RELEASED.(status := Reversed)], records := [Record(3, 700000, Reversed, 0, Some(1))]))
  }

  function TornApart(): State {
    State(ReversedMeanwhile().db.(earnings := [RELEASED.(status := Paid)]), map[], map[])
  }

  lemma ReversalComesBetween()
    ensures Apply(HalfPaid(), Webhook(1, PayoutReversed)) == ReversedMeanwhile()
  {
    assert FindRecord(HalfPaid().db.records, 1) == Some(0);
  }

  lemma ConfirmationFinishes()
    ensures Apply(ReversedMeanwhile(), FinishEvent(4)) == TornApart()
  {
    assert map[4 := Following(0, true)] - {4} == map[];
  }

  /**
   A reversal delivered whole between the two statements of the confirmation:
   the record ends REVERSED with its earning PAID, and delivering either event
   again changes nothing.
   */
  lemma OvertakenConfirmationStays(s: State, t: State)
    requires s == Apply(Apply(Apply(ReachPayout(), Send(0, Some(1))), Deliver(4, 1, PayoutProcessed)), WriteEvent(4))
    requires t == Apply(Apply(s, Webhook(1, PayoutReversed)), FinishEvent(4))
    ensures Overtaken(Apply(s, Webhook(1, PayoutReversed)), FinishEvent(4), 0, 0)
    ensures t.db.records == [Record(3, 700000, Reversed, 0, Some(1))]
    ensures t.db.earnings == [RELEASED.(status := Paid)]
    ensures t.calls == map[] && Apply(t, Webhook(1, PayoutProcessed)) == Apply(t, Webhook(1, PayoutReversed)) == t
  {
    ConfirmationStarts();
    ReversalComesBetween();
    ConfirmationFinishes();
    OvertakenHere(ReversedMeanwhile());
    assert FindRecord(t.db.records, 1) == Some(0);
    EventIsIgnored(t, 1, PayoutProcessed, 0);
    EventIsIgnored(t, 1, PayoutReversed, 0);
  }

  lemma OvertakenHere(s: State)
    requires s == ReversedMeanwhile()
    ensures Overtaken(s, FinishEvent(4), 0, 0)
  {
  }

  function LeftHalfPaid(): State {
    HalfPaid().(calls := map[])
  }

  lemma ConfirmationStops()
    ensures Apply(HalfPaid(), Abandon(4)) == LeftHalfPaid()
  {
    assert map[4 := Following(0, true)] - {4} == map[];
  }

  /**
   A handler that stops between the two statements leaves the record PAID with
   its earning PROCESSING, and delivering the confirmation again changes nothing.
   */
  lemma AbandonedConfirmationStays(r: State, s: State)
    requires r == Apply(Apply(Apply(ReachPayout(), Send(0, Some(1))), Deliver(4, 1, PayoutProcessed)), WriteEvent(4))
    requires s == Apply(r, Abandon(4))
    ensures LeftBehind(r, Abandon(4), 0, 0)
    ensures s.db.records == [Record(3, 700000, Paid, 0, Some(1))]
    ensures s.db.earnings == [RELEASED.(status := Processing)]
    ensures s.calls == map[] && Apply(s, Webhook(1, PayoutProcessed)) == s
  {
    ConfirmationStarts();
    ConfirmationStops();
    assert FindRecord(s.db.records, 1) == Some(0);
    EventIsIgnored(s, 1, PayoutProcessed, 0);
  }

  /**
   Two sends that both read one failed attempt and both fail: the record has
   failed three times, is RETRYABLE all the same, and may be sent again.
   */
  lemma ConcurrentSendsMissTheCap(s: State, t: State)
    requires s == Apply(Apply(Apply(ReachPayout(), Send(0, None)), ReadRecord(4, 0)), ReadRecord(5, 0))
    requires t == Apply(Apply(s, WriteSent(4, None)), WriteSent(5, None))
    ensures s.db.records == [Record(3, 700000, Retryable, 1, None)]
    ensures t.db.records == [Record(3, 700000, Retryable, 3, None)]
    ensures MissesCap(Apply(s, WriteSent(4, None)), WriteSent(5, None))
    ensures RetriesOk(s.db) && !RetriesOk(t.db) && CheckSend(t.db, 0) == Ok
  {
    PayoutIsRequested();
    assert Apply(PayoutRequested(), Send(0, None)) == FailedOnce();
    assert s.calls == map[4 := Sending(0, 1), 5 := Sending(0, 1)] && s.db == FailedOnce().db;
    var u := Apply(s, WriteSent(4, None));
    assert u.db.records == [Record(3, 700000, Retryable, 2, None)] && 5 in u.calls;
    assert !CapHolds(t.db.records[0]);
  }
}

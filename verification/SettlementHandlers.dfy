/**
 The settlement handlers as they run against the tables. Each keeps the tables
 valid, says what has changed for a caller, and is proved to make exactly the
 transition that the results about runs are stated over.
 */
module SettlementHandlers {
  import opened Prelude
  import opened Settlement
  import opened SettlementRules
  import opened SettlementSafety

  /** The tables with no handler in flight. */
  function Quiet(db: Db): State {
    State(db, map[], map[])
  }

  /** The request has an earning that is still held. */
  predicate HoldsEarnings(es: seq<Earning>, r: nat) {
    exists e | 0 <= e < |es| :: es[e].request == r && (es[e].status == Earned || es[e].status == PendingSettlement)
  }

  /** Only the earnings of one request with a status in `from` changed, and all of them alike. */
  ghost predicate MovedOnly(a: seq<Earning>, b: seq<Earning>, r: nat, from: set<PayStatus>,
                            status: PayStatus, reason: Option<Reason>) {
    |b| == |a| && forall e | 0 <= e < |a| ::
      b[e] == if a[e].request == r && a[e].status in from
              then a[e].(status := status, reason := if reason.Some? then reason else a[e].reason) else a[e]
  }

  class SettlementStore {
    var requests: seq<VRequest>
    var claims: seq<Claim>
    var refunds: seq<Refund>
    var earnings: seq<Earning>
    var records: seq<Record>

    ghost function Tables(): Db
      reads this
    {
      Db(requests, claims, refunds, earnings, records)
    }

    /** References, release reasons, active claims and refunds as every reachable state has them. */
    ghost predicate Valid()
      reads this
    {
      DbOk(Tables())
    }

    constructor (requests: seq<VRequest>)
      ensures Valid() && Tables() == Db(requests, [], [], [], [])
    {
      this.requests := requests;
      claims, refunds, earnings, records := [], [], [], [];
    }

    /** A captured payment: the expert's share is EARNED. */
    method RecordCapture(r: nat, seller: nat, paise: nat)
      requires Valid()
      modifies this
      ensures Valid() && Tables() == CommitCapture(old(Tables()), r, seller, paise)
      ensures earnings ==
                if r < |old(requests)| && !old(requests)[r].unlocked
                then old(earnings) + [Earning(r, seller, paise, Earned, None, None)] else old(earnings)
      ensures requests == old(requests) && claims == old(claims) && refunds == old(refunds) && records == old(records)
    {
      CaptureWritesExactly(Tables(), r, seller, paise);
      CaptureKeepsDbOk(Tables(), r, seller, paise);
      if r < |requests| && !requests[r].unlocked {
        earnings := earnings + [Earning(r, seller, paise, Earned, None, None)];
      }
    }

    /** The report is delivered: the seven days start, once, and what was earned is on hold. */
    method PromoteEarningsOnUnlock(r: nat, now: int)
      requires Valid()
      modifies this
      ensures Valid() && Tables() == CommitUnlock(old(Tables()), r, now)
      ensures r >= |old(requests)| ==> requests == old(requests) && earnings == old(earnings)
      ensures r < |old(requests)| ==>
                && requests == old(requests)[r := old(requests)[r].(unlocked := true, deadline :=
                     if old(requests)[r].deadline == None then Some(now + 604800000) else old(requests)[r].deadline)]
                && MovedOnly(old(earnings), earnings, r, {Earned}, PendingSettlement, None)
      ensures claims == old(claims) && refunds == old(refunds) && records == old(records)
    {
      UnlockKeepsDbOk(Tables(), r, now);
      if r >= |requests| {
        return;
      }
      DeliveryWritesExactly(Tables(), r, now);
      var request := requests[r];
      requests := requests[r := request.(unlocked := true, deadline :=
        if request.deadline.None? then Some(now + CLAIM_WINDOW_MS) else request.deadline)];
      earnings := Promote(earnings, r);
    }

    /**
     A refund with nothing in between: `hit` are the earnings behind the payments
     it returns, `sent` whether the provider took it. A refusal puts the row back.
     */
    method ExecuteRefund(f: nat, hit: set<nat>, sent: bool) returns (ok: bool)
      requires Valid()
      modifies this
      ensures Valid()
      ensures Tables() == if sent then CommitRefund(old(Tables()), f, hit).0 else old(Tables())
      ensures ok <==> f < |old(refunds)| && old(refunds)[f].status == RefundPending && sent
      ensures !ok ==> Tables() == old(Tables())
      ensures ok ==>
                && refunds == old(refunds)[f := old(refunds)[f].(status := RefundDone)]
                && |earnings| == |old(earnings)|
                && (forall e | 0 <= e < |earnings| :: earnings[e] ==
                      if e in hit && old(earnings)[e].request == refunds[f].request
                         && MayReverse(old(earnings)[e].status)
                      then old(earnings)[e].(status := Reversed) else old(earnings)[e])
                && requests == old(requests) && claims == old(claims) && records == old(records)
    {
      RefundWritesExactly(Tables(), f, hit);
      CommitRefundKeepsDbOk(Tables(), f, hit);
      if f >= |refunds| || refunds[f].status != RefundPending {
        return false;
      }
      var refund := refunds[f];
      refunds := refunds[f := refund.(status := RefundDone)];
      if !sent {
        refunds := refunds[f := refund];
        assert refunds == old(refunds);
        return false;
      }
      earnings := Reverse(earnings, refund.request, hit);
      return true;
    }

    /** Only a pending refund is rejected; the earnings are left alone. */
    method RejectRefund(f: nat) returns (reply: Reply)
      requires Valid()
      modifies this
      ensures Valid() && Tables() == CommitRefundReject(old(Tables()), f).0
      ensures reply == Ok <==> f < |old(refunds)| && old(refunds)[f].status == RefundPending
      ensures reply == Refused(404) <==> f >= |old(refunds)|
      ensures reply == Ok || (reply in {Refused(404), Refused(400)} && Tables() == old(Tables()))
      ensures reply == Ok ==>
                && refunds == old(refunds)[f := old(refunds)[f].(status := RefundRejected)]
                && requests == old(requests) && claims == old(claims) && earnings == old(earnings)
                && records == old(records)
    {
      RefundRowsWriteExactly(Tables(), f);
      CommitRefundRejectKeepsDbOk(Tables(), f);
      if f >= |refunds| {
        return Refused(404);
      }
      if refunds[f].status != RefundPending {
        return Refused(400);
      }
      refunds := refunds[f := refunds[f].(status := RefundRejected)];
      return Ok;
    }

    /** The buyer confirms the report; held earnings become payable. */
    method AcceptReport(r: nat, user: nat, now: int) returns (reply: Reply)
      requires Valid()
      modifies this
      ensures Valid()
      ensures reply == CheckAccept(old(Tables()), r, user, now)
      ensures reply == Ok <==> MayAccept(old(Tables()), r, user, now)
      ensures reply == Refused(404) <==> r >= |old(requests)| || old(requests)[r].user != user
      ensures reply == Refused(400) <==>
                r < |old(requests)| && old(requests)[r].user == user && !old(requests)[r].unlocked
      ensures reply == Ok || (reply in {Refused(404), Refused(400), Refused(409)} && Tables() == old(Tables()))
      ensures Tables() == if reply == Ok then CommitAccept(old(Tables()), r) else old(Tables())
      ensures reply == Ok ==>
                && r < |old(requests)| && requests == old(requests)[r := old(requests)[r].(accepted := true)]
                && MovedOnly(old(earnings), earnings, r, {Earned, PendingSettlement}, Available, Some(BuyerAccepted))
                && claims == old(claims) && refunds == old(refunds) && records == old(records)
    {
      ghost var before := Tables();
      ChecksPassExactly(before, r, user, now);
      if r >= |requests| || requests[r].user != user {
        return Refused(404);
      }
      var request := requests[r];
      if !request.unlocked {
        return Refused(400);
      }
      if request.accepted {
        return Refused(409);
      }
      if request.deadline.Some? && now > request.deadline.value {
        return Refused(409);
      }
      var active := FindActiveClaim(r);
      if active {
        return Refused(409);
      }
      requests := requests[r := request.(accepted := true)];
      earnings := Release(earnings, r, BuyerAccepted, HELD);
      AcceptKeepsValid(before, r, user, now);
      return Ok;
    }

    method FindActiveClaim(r: nat) returns (found: bool)
      ensures found == HasActiveClaim(Tables(), r)
    {
      for c := 0 to |claims|
        invariant forall d | 0 <= d < c :: !(claims[d].request == r && claims[d].status.Active())
      {
        if claims[c].request == r && claims[c].status.Active() {
          return true;
        }
      }
      return false;
    }

    /** A claim freezes the held earnings the instant it is created. */
    method CreateClaimWithFreeze(r: nat, user: nat, now: int) returns (reply: Reply)
      requires Valid()
      modifies this
      ensures Valid()
      ensures reply == CheckClaim(old(Tables()), r, user, now)
      ensures reply == Ok <==> MayClaim(old(Tables()), r, user, now)
      ensures reply == Refused(404) <==> r >= |old(requests)| || old(requests)[r].user != user
      ensures reply == Refused(400) <==>
                r < |old(requests)| && old(requests)[r].user == user && !old(requests)[r].unlocked
      ensures reply == Ok || (reply in {Refused(404), Refused(400), Refused(409)} && Tables() == old(Tables()))
      ensures Tables() == if reply == Ok then CommitClaim(old(Tables()), r).0 else old(Tables())
      ensures reply == Ok ==>
                && claims == old(claims) + [Claim(r, Open, None)]
                && MovedOnly(old(earnings), earnings, r, {Earned, PendingSettlement}, Frozen, None)
                && !HoldsEarnings(earnings, r)
                && requests == old(requests) && refunds == old(refunds) && records == old(records)
    {
      ghost var before := Tables();
      ChecksPassExactly(before, r, user, now);
      if r >= |requests| || requests[r].user != user {
        return Refused(404);
      }
      var request := requests[r];
      if !request.unlocked {
        return Refused(400);
      }
      if request.deadline.None? || now > request.deadline.value {
        return Refused(409);
      }
      if request.accepted {
        return Refused(409);
      }
      var active := FindActiveClaim(r);
      if active {
        return Refused(409);
      }
      claims := claims + [Claim(r, Open, None)];
      earnings := Freeze(earnings, r);
      ClaimKeepsValid(before, r, user, now);
      return Ok;
    }

    /** One request of the expiry sweep; reports whether anything was released. */
    method ExpireClaimWindow(r: nat, now: int) returns (released: bool)
      requires Valid()
      modifies this
      ensures Valid()
      ensures Tables() == if CheckSweep(old(Tables()), r, now) then CommitSweep(old(Tables()), r) else old(Tables())
      ensures released <==> Tables() != old(Tables())
      ensures released <==> MaySweep(old(Tables()), r, now) && HoldsEarnings(old(earnings), r)
      ensures released ==>
                MovedOnly(old(earnings), earnings, r, {Earned, PendingSettlement}, Available, Some(ClaimWindowExpired))
                && requests == old(requests) && claims == old(claims) && refunds == old(refunds)
                && records == old(records)
    {
      ghost var before := Tables();
      ChecksPassExactly(before, r, 0, now);
      if r >= |requests| || !requests[r].unlocked || requests[r].deadline.None?
         || requests[r].deadline.value > now || requests[r].accepted {
        return false;
      }
      var active := FindActiveClaim(r);
      if active {
        return false;
      }
      var after := Release(earnings, r, ClaimWindowExpired, HELD);
      released := after != earnings;
      SweepReleasesHeld(earnings, r);
      earnings := after;
      SweepKeepsValid(before, r, now);
    }

    /** The admin's decision on a claim, with nothing between its read and its transaction. */
    method ResolveClaim(c: nat, target: ClaimStatus, now: int) returns (reply: Reply)
      requires Valid() && target != Open
      modifies this
      ensures Valid()
      ensures (Tables(), reply) == ResolveNow(old(Tables()), c, target, now)
      ensures reply == Refused(404) <==> c >= |old(claims)|
      ensures reply == Refused(400) <==>
                c < |old(claims)| && old(claims)[c].status in {Resolved, Rejected, RefundProcessed}
      ensures reply == Refused(409) <==>
                c < |old(claims)| && old(claims)[c].status !in {Resolved, Rejected, RefundProcessed}
                && Conflicts(old(Tables()), c, old(claims)[c].status, target)
      ensures reply == Ok || (reply in {Refused(404), Refused(400), Refused(409)} && Tables() == old(Tables()))
      ensures reply == Ok ==>
                && claims == old(claims)[c := old(claims)[c].(status := target, resolvedAt :=
                     if target in {Resolved, Rejected, RefundProcessed} then Some(now) else old(claims)[c].resolvedAt)]
                && (if target == RefundApproved && old(claims)[c].status != RefundApproved then
                      && |refunds| == |old(refunds)| + 1 && refunds[..|old(refunds)|] == old(refunds)
                      && refunds[|old(refunds)|].claim == c && refunds[|old(refunds)|].status == RefundPending
                      && refunds[|old(refunds)|].request == claims[c].request < |requests|
                      && refunds[|old(refunds)|].amount == requests[claims[c].request].agreedFee.GetOr(0)
                    else refunds == old(refunds))
                && (if target == Rejected
                    then MovedOnly(old(earnings), earnings, claims[c].request, {Frozen}, Available, Some(ClaimRejected))
                    else earnings == old(earnings))
                && requests == old(requests) && records == old(records)
    {
      ResolveKeepsValid(Tables(), c, target, now);
      if c >= |claims| {
        return Refused(404);
      }
      var claim := claims[c];
      DecisionWritesExactly(Tables(), c, claim.status, target, now);
      if claim.status == Resolved || claim.status == Rejected || claim.status == RefundProcessed {
        return Refused(400);
      }
      var isTerminal := target == Resolved || target == Rejected || target == RefundProcessed;
      var shouldCreateRefund := target == RefundApproved && claim.status != RefundApproved;
      if target == UnderReview && ActiveElsewhere(Db(requests, claims, refunds, earnings, records), c) {
        return Refused(409);
      }
      if shouldCreateRefund {
        if HasRefund(Db(requests, claims, refunds, earnings, records), c) {
          return Refused(409);
        }
        var amount := requests[claim.request].agreedFee.GetOr(0);
        refunds := refunds + [Refund(c, claim.request, amount, RefundPending)];
      }
      claims := claims[c := claim.(status := target, resolvedAt := if isTerminal then Some(now) else claim.resolvedAt)];
      if target == Rejected {
        earnings := Release(earnings, claim.request, ClaimRejected, {Frozen});
      }
      return Ok;
    }

    /** What the expert has available, and its sum. */
    method FindAvailable(seller: nat) returns (ids: set<nat>, total: nat)
      ensures ids == Claimable(earnings, seller) && total == SumOf(earnings, ids, |earnings|)
    {
      ids, total := {}, 0;
      for i := 0 to |earnings|
        invariant ids == set k: nat | k < i && earnings[k].seller == seller && earnings[k].status == Available
        invariant total == SumOf(earnings, Claimable(earnings, seller), i)
      {
        if earnings[i].seller == seller && earnings[i].status == Available {
          ids := ids + {i};
          total := total + earnings[i].paise;
        }
      }
      assert ids == Claimable(earnings, seller);
    }

    /** The expert claims every available earning into one new payout record. */
    method RequestPayout(seller: nat) returns (reply: Reply)
      requires Valid()
      modifies this
      ensures Valid()
      ensures var ids := Claimable(old(earnings), seller);
              if ids == {} then reply == Refused(400) && Tables() == old(Tables())
              else (Tables(), reply) == CommitPayout(old(Tables()), seller, ids,
                                        SumOf(old(earnings), ids, |old(earnings)|))
                   && reply == Ok
      ensures reply == Refused(400) <==>
                forall e | 0 <= e < |old(earnings)| && old(earnings)[e].seller == seller ::
                  old(earnings)[e].status != Available
      ensures reply == Ok || (reply == Refused(400) && Tables() == old(Tables()))
      ensures reply == Ok ==>
                && |records| == |old(records)| + 1 && records[..|old(records)|] == old(records)
                && records[|old(records)|] == Record(seller, records[|old(records)|].total, Requested, 0, None)
                && |earnings| == |old(earnings)|
                && (forall e | 0 <= e < |earnings| :: earnings[e] ==
                      if old(earnings)[e].seller == seller && old(earnings)[e].status == Available
                      then old(earnings)[e].(status := Requested, record := Some(|old(records)|))
                      else old(earnings)[e])
                && requests == old(requests) && claims == old(claims) && refunds == old(refunds)
    {
      var ids, total := FindAvailable(seller);
      RequestWritesExactly(Tables(), seller, total);
      if ids == {} {
        return Refused(400);
      }
      earnings := Join(earnings, ids, |records|);
      records := records + [Record(seller, total, Requested, 0, None)];
      return Ok;
    }

    /** Send a record to the provider; `sent` is the payout id it answered with, if it took the transfer. */
    method ProcessPayout(k: nat, sent: Option<nat>) returns (reply: Reply)
      requires Valid()
      modifies this
      ensures Valid()
      ensures Tables() == SendNow(old(Tables()), k, sent)
      ensures reply == Ok <==> MaySend(old(Tables()), k, sent)
      ensures reply == Refused(404) <==> k >= |old(records)|
      ensures reply == Refused(400) <==>
                k < |old(records)| && old(records)[k].status != Requested && old(records)[k].status != Retryable
      ensures reply in {Refused(404), Refused(400)} ==> Tables() == old(Tables())
      ensures reply == Ok ==>
                RecordSet(old(Tables()), Tables(), k, old(records)[k].(status := Processing, payoutId := sent))
      ensures reply !in {Ok, Refused(404), Refused(400)} ==>
                reply == Refused(502)
                && RecordSet(old(Tables()), Tables(), k, AfterFailure(old(records)[k], old(records)[k].retries))
    {
      SendNowWritesExactly(Tables(), k, sent);
      SendKeepsValid(Tables(), k, sent);
      if k >= |records| {
        return Refused(404);
      }
      var record := records[k];
      if record.status != Requested && record.status != Retryable {
        return Refused(400);
      }
      if sent.Some? && !PayoutIdUsed(Db(requests, claims, refunds, earnings, records), k, sent.value) {
        records := records[k := record.(status := Processing, payoutId := sent)];
        earnings := Follow(earnings, k, Processing);
        return Ok;
      }
      var next := if record.retries + 1 >= MAX_PAYOUT_RETRY_ATTEMPTS then ManualReview else Retryable;
      records := records[k := record.(status := next, retries := record.retries + 1)];
      earnings := Follow(earnings, k, next);
      return Refused(502);
    }

    /**
     The Super Admin starts a payout from one earning: everything the same
     expert has available is claimed into one record, which is sent at once.
     */
    method InitiateExpertVerificationPayout(e: nat, sent: Option<nat>) returns (reply: Reply)
      requires Valid()
      modifies this
      ensures Valid()
      ensures e >= |old(earnings)| ==> reply == Refused(404) && Tables() == old(Tables())
      ensures e < |old(earnings)| && old(earnings)[e].status != Available ==>
                reply == Refused(400) && Tables() == old(Tables())
      ensures e < |old(earnings)| && old(earnings)[e].status == Available ==>
                var seller := old(earnings)[e].seller;
                var ids := Claimable(old(earnings), seller);
                && Tables() == SendNow(CommitPayout(old(Tables()), seller, ids,
                                        SumOf(old(earnings), ids, |old(earnings)|)).0,
                                       |old(records)|, sent)
                && e < |earnings| && earnings[e].record == Some(|old(records)|)
                && (reply == Ok ==> earnings[e].status == Processing)
    {
      if e >= |earnings| {
        return Refused(404);
      }
      if earnings[e].status != Available {
        return Refused(400);
      }
      assert e in Claimable(earnings, earnings[e].seller);
      var k := |records|;
      reply := RequestPayout(earnings[e].seller);
      reply := ProcessPayout(k, sent);
    }

    /** A provider event with nothing between its statements: the only way to PAID, and a no-op when delivered again. */
    method HandlePayoutWebhookEvent(pid: nat, event: PayoutEvent) returns (ignored: bool)
      requires Valid()
      modifies this
      ensures Valid()
      ensures Tables() == CommitWebhook(old(Tables()), pid, event)
      ensures ignored <==> Tables() == old(Tables())
      ensures CommitWebhook(Tables(), pid, event) == Tables()
      ensures (forall k | 0 <= k < |old(records)| :: old(records)[k].payoutId != Some(pid)) ==> ignored
      ensures forall k: nat | OnlyRecordOf(old(Tables()), k, pid) ::
                var after := AfterEventOn(old(records)[k], event);
                && (ignored <==> after == old(records)[k])
                && (!ignored ==> RecordSet(old(Tables()), Tables(), k, after))
    {
      EventWritesExactly(Tables(), pid, event);
      WebhookKeepsValid(Tables(), pid, event);
      EventTwiceIsOnce(Tables(), pid, event);
      var found := FindRecord(records, pid);
      if found.None? {
        return true;
      }
      var k, record := found.value, records[found.value];
      var needed := if event == PayoutReversed then Paid else Processing;
      if record.status != needed {
        return true;
      }
      var next :=
        match event
        case PayoutProcessed => Paid
        case PayoutFailed => if record.retries >= MAX_PAYOUT_RETRY_ATTEMPTS then ManualReview else Retryable
        case PayoutReversed => Reversed;
      records := records[k := record.(status := next)];
      earnings := Follow(earnings, k, next);
      return false;
    }

    /** Retry a record under manual review, or write it off. */
    method ResolveManualReview(k: nat, retry: bool) returns (reply: Reply)
      requires Valid()
      modifies this
      ensures Valid()
      ensures reply == CheckManual(old(Tables()), k)
      ensures Tables() == ReviewNow(old(Tables()), k, retry)
      ensures reply == Refused(404) <==> k >= |old(records)|
      ensures reply == Refused(400) <==> k < |old(records)| && old(records)[k].status != ManualReview
      ensures reply == Ok || (reply in {Refused(404), Refused(400)} && Tables() == old(Tables()))
      ensures reply == Ok ==>
                RecordSet(old(Tables()), Tables(), k,
                          if retry then old(records)[k].(status := Retryable, retries := 0)
                          else old(records)[k].(status := Reversed))
                && (CheckSend(Tables(), k) == Ok <==> retry)
    {
      ReviewKeepsValid(Tables(), k, retry);
      if k >= |records| {
        return Refused(404);
      }
      var record := records[k];
      if record.status != ManualReview {
        return Refused(400);
      }
      ReviewWritesExactly(Tables(), k, record.retries, retry);
      var next := if retry then Retryable else Reversed;
      records := records[k := record.(status := next, retries := if retry then 0 else record.retries)];
      earnings := Follow(earnings, k, next);
      return Ok;
    }
  }

  // ------------------------------------------------------ the handlers as runs

  /** Tables are valid exactly when the state with nothing in flight has the invariant. */
  lemma QuietInv(db: Db)
    ensures Inv(Quiet(db)) <==> DbOk(db)
  {
  }

  lemma ResolveKeepsValid(db: Db, c: nat, target: ClaimStatus, now: int)
    requires DbOk(db) && target != Open
    ensures DbOk(ResolveNow(db, c, target, now).0)
  {
    if CheckResolve(db, c) == Ok {
      CommitResolveKeepsDbOk(db, c, db.claims[c].status, target, now);
    }
  }

  lemma SendKeepsValid(db: Db, k: nat, sent: Option<nat>)
    requires DbOk(db)
    ensures DbOk(SendNow(db, k, sent))
  {
    AtOncePayoutMovesOnlyEarnings(db, Send(k, sent));
    EarningMovesKeepDbOk(db, SendNow(db, k, sent));
  }

  lemma ReviewKeepsValid(db: Db, k: nat, retry: bool)
    requires DbOk(db)
    ensures DbOk(ReviewNow(db, k, retry))
  {
    AtOncePayoutMovesOnlyEarnings(db, Review(k, retry));
    EarningMovesKeepDbOk(db, ReviewNow(db, k, retry));
  }

  lemma WebhookKeepsValid(db: Db, pid: nat, event: PayoutEvent)
    requires DbOk(db)
    ensures DbOk(CommitWebhook(db, pid, event))
  {
    AtOncePayoutMovesOnlyEarnings(db, Webhook(pid, event));
    EarningMovesKeepDbOk(db, CommitWebhook(db, pid, event));
  }

  /** A request whose read is still true when it writes: all the expert has available, and nothing else, is joined. */
  lemma RequestWritesExactly(db: Db, seller: nat, total: nat)
    requires DbOk(db)
    ensures var (t, reply) := CommitPayout(db, seller, Claimable(db.earnings, seller), total);
            && DbOk(t) && reply == Ok && |t.earnings| == |db.earnings|
            && (Claimable(db.earnings, seller) == {} <==>
                  forall e | 0 <= e < |db.earnings| && db.earnings[e].seller == seller ::
                    db.earnings[e].status != Available)
            && forall e | 0 <= e < |db.earnings| :: t.earnings[e] ==
                 if db.earnings[e].seller == seller && db.earnings[e].status == Available
                 then db.earnings[e].(status := Requested, record := Some(|db.records|)) else db.earnings[e]
  {
    var ids := Claimable(db.earnings, seller);
    CommitPayoutMovesOnlyEarnings(db, seller, ids, total);
    EarningMovesKeepDbOk(db, CommitPayout(db, seller, ids, total).0);
    PayoutWritesExactly(db, seller, ids, total);
    forall e: nat | e < |db.earnings| {
      PayoutReadsExactly(db.earnings, seller, e);
    }
  }

  /** A handler that starts under a row lock and finishes keeps them valid. */
  lemma LockedHandlerKeepsValid(db: Db, start: Step, r: nat)
    requires DbOk(db)
    ensures DbOk(Apply(Apply(Quiet(db), start), FinishLocked(r)).db)
  {
    QuietInv(db);
    StepKeepsInv(Quiet(db), start);
    StepKeepsInv(Apply(Quiet(db), start), FinishLocked(r));
  }

  lemma AcceptKeepsValid(db: Db, r: nat, user: nat, now: int)
    requires DbOk(db) && CheckAccept(db, r, user, now) == Ok
    ensures DbOk(CommitAccept(db, r))
  {
    LockedHandlerKeepsValid(db, StartAccept(r, user, now), r);
    AcceptIsARun(Quiet(db), r, user, now);
  }

  lemma ClaimKeepsValid(db: Db, r: nat, user: nat, now: int)
    requires DbOk(db) && CheckClaim(db, r, user, now) == Ok
    ensures DbOk(CommitClaim(db, r).0)
  {
    LockedHandlerKeepsValid(db, StartClaim(r, user, now), r);
    ClaimIsARun(Quiet(db), r, user, now);
  }

  lemma SweepKeepsValid(db: Db, r: nat, now: int)
    requires DbOk(db) && CheckSweep(db, r, now)
    ensures DbOk(CommitSweep(db, r))
  {
    LockedHandlerKeepsValid(db, StartSweep(r, now), r);
    SweepIsARun(Quiet(db), r, now);
  }

  lemma SweepReleasesHeld(es: seq<Earning>, r: nat)
    ensures Release(es, r, ClaimWindowExpired, HELD) != es <==> HoldsEarnings(es, r)
  {
    if e :| 0 <= e < |es| && es[e].request == r && es[e].status in HELD {
      assert Release(es, r, ClaimWindowExpired, HELD)[e] != es[e];
    } else {
      assert Release(es, r, ClaimWindowExpired, HELD) == es;
    }
  }

  /** Delivering an event twice in a row does what delivering it once does. */
  lemma EventTwiceIsOnce(db: Db, pid: nat, event: PayoutEvent)
    ensures CommitWebhook(CommitWebhook(db, pid, event), pid, event) == CommitWebhook(db, pid, event)
  {
    var t := CommitWebhook(db, pid, event);
    if t != db {
      SameRecordFound(db.records, t.records, pid);
    }
  }

  lemma {:induction false} SameRecordFound(a: seq<Record>, b: seq<Record>, pid: nat)
    requires |a| == |b| && forall k | 0 <= k < |a| :: a[k].payoutId == b[k].payoutId
    ensures FindRecord(a, pid) == FindRecord(b, pid)
  {
    if a != [] {
      SameRecordFound(a[..|a| - 1], b[..|b| - 1], pid);
    }
  }

  /** A handler that is one step makes the transition that its method makes; the others end one that had begun. */
  lemma StepsAreHandlers(s: State, step: Step)
    ensures step.Capture? ==> Apply(s, step) == s.(db := CommitCapture(s.db, step.r, step.seller, step.paise))
    ensures step.Unlock? ==>
              Apply(s, step) == if step.r in s.locks then s else s.(db := CommitUnlock(s.db, step.r, step.now))
    ensures step.Resolve? && step.target != Open ==>
              Apply(s, step) == s.(db := ResolveNow(s.db, step.c, step.target, step.now).0)
    ensures step.ProcessRefund? ==> Apply(s, step) == s.(db := CommitRefund(s.db, step.f, step.hit).0)
    ensures step.RejectRefund? ==> Apply(s, step) == s.(db := CommitRefundReject(s.db, step.f).0)
    ensures step.Send? ==> Apply(s, step) == s.(db := SendNow(s.db, step.k, step.sent))
    ensures step.Review? ==> Apply(s, step) == s.(db := ReviewNow(s.db, step.k, step.retry))
    ensures step.Webhook? ==> Apply(s, step) == s.(db := CommitWebhook(s.db, step.pid, step.event))
    ensures step.RollBack? ==> Apply(s, step) == s.(locks := s.locks - {step.r})
    ensures step.Abandon? ==> Apply(s, step) == s.(calls := s.calls - {step.call})
  {
  }

  lemma AcceptIsARun(s: State, r: nat, user: nat, now: int)
    requires r !in s.locks
    ensures Apply(Apply(s, StartAccept(r, user, now)), FinishLocked(r)).db ==
            if CheckAccept(s.db, r, user, now) == Ok then CommitAccept(s.db, r) else s.db
  {
  }

  lemma ClaimIsARun(s: State, r: nat, user: nat, now: int)
    requires r !in s.locks
    ensures Apply(Apply(s, StartClaim(r, user, now)), FinishLocked(r)).db ==
            if CheckClaim(s.db, r, user, now) == Ok then CommitClaim(s.db, r).0 else s.db
  {
  }

  lemma SweepIsARun(s: State, r: nat, now: int)
    requires r !in s.locks
    ensures Apply(Apply(s, StartSweep(r, now)), FinishLocked(r)).db ==
            if CheckSweep(s.db, r, now) then CommitSweep(s.db, r) else s.db
  {
  }

  function PayoutCall(es: seq<Earning>, seller: nat): Call {
    RequestingPayout(seller, Claimable(es, seller), SumOf(es, Claimable(es, seller), |es|))
  }

  lemma PayoutIsARun(s: State, seller: nat, call: nat)
    requires call !in s.calls
    ensures var read := PayoutCall(s.db.earnings, seller);
            Apply(Apply(s, ReadPayout(call, seller)), WritePayout(call)).db ==
            if read.ids == {} then s.db else CommitPayout(s.db, seller, read.ids, read.total).0
  {
    var read, t := PayoutCall(s.db.earnings, seller), Apply(s, ReadPayout(call, seller));
    if read.ids == {} {
      assert t == s;
    } else {
      assert t == s.(calls := s.calls[call := read]);
      WritePayoutCommits(t, call, read);
    }
  }

  lemma WritePayoutCommits(t: State, call: nat, read: Call)
    requires call in t.calls && t.calls[call] == read && read.RequestingPayout?
    ensures Apply(t, WritePayout(call)).db == CommitPayout(t.db, read.seller, read.ids, read.total).0
  {
  }

  /** A send, a review and a decision with nothing in between are their read and their write in a row. */
  lemma SendIsARun(s: State, call: nat, k: nat, sent: Option<nat>)
    requires call !in s.calls
    ensures Apply(Apply(s, ReadRecord(call, k)), WriteSent(call, sent)).db == SendNow(s.db, k, sent)
  {
    if CheckSend(s.db, k) == Ok {
      var t := Apply(s, ReadRecord(call, k));
      assert t == s.(calls := s.calls[call := Sending(k, s.db.records[k].retries)]);
    }
  }

  lemma ReviewIsARun(s: State, call: nat, k: nat, retry: bool)
    requires call !in s.calls
    ensures Apply(Apply(s, ReadManual(call, k, retry)), WriteManual(call)).db == ReviewNow(s.db, k, retry)
  {
    if CheckManual(s.db, k) == Ok {
      var t := Apply(s, ReadManual(call, k, retry));
      assert t == s.(calls := s.calls[call := Reviewing(k, s.db.records[k].retries, retry)]);
    }
  }

  lemma ResolveIsARun(s: State, call: nat, c: nat, target: ClaimStatus, now: int)
    requires call !in s.calls && target != Open
    ensures Apply(Apply(s, ReadClaim(call, c)), WriteClaim(call, target, now)).db == ResolveNow(s.db, c, target, now).0
  {
    if CheckResolve(s.db, c) == Ok {
      var t := Apply(s, ReadClaim(call, c));
      assert t == s.(calls := s.calls[call := Resolving(c, s.db.claims[c].status)]);
    }
  }

  /** An event delivered at once is its lookup and its two statements with nothing in between. */
  lemma WebhookIsARun(s: State, call: nat, pid: nat, event: PayoutEvent)
    requires call !in s.calls
    ensures Apply(Apply(Apply(s, Deliver(call, pid, event)), WriteEvent(call)), FinishEvent(call)).db ==
            CommitWebhook(s.db, pid, event)
  {
    var k := FindRecord(s.db.records, pid);
    if k.Some? {
      var t := Apply(s, Deliver(call, pid, event));
      assert t == s.(calls := s.calls[call := Delivering(k.value, event)]);
      EventIsARun(t, call, k.value, event);
    }
  }

  lemma EventIsARun(t: State, call: nat, k: nat, event: PayoutEvent)
    requires call in t.calls && t.calls[call] == Delivering(k, event) && k < |t.db.records|
    ensures var needed := if event == PayoutReversed then Paid else Processing;
            Apply(Apply(t, WriteEvent(call)), FinishEvent(call)).db ==
            if t.db.records[k].status != needed then t.db
            else SetRecord(t.db, k, t.db.records[k].(status :=
                   match event
                   case PayoutProcessed => Paid
                   case PayoutFailed =>
                     if t.db.records[k].retries >= MAX_PAYOUT_RETRY_ATTEMPTS then ManualReview else Retryable
                   case PayoutReversed => Reversed))
  {
  }

  /** The reads of a refund, one for each payment it returns. */
  function Reads(call: nat, hits: seq<set<nat>>): seq<Step> {
    seq(|hits|, i requires 0 <= i < |hits| => ReadEarnings(call, hits[i]))
  }

  function AllOf(hits: seq<set<nat>>): set<nat> {
    if hits == [] then {} else AllOf(hits[..|hits| - 1]) + hits[|hits| - 1]
  }

  lemma ReadAdds(s: State, call: nat, f: nat, read: set<nat>, hit: set<nat>)
    requires call in s.calls && (s.calls[call] == Reversing(f, read) || (s.calls[call] == Refunding(f) && read == {}))
    ensures Apply(s, ReadEarnings(call, hit)) ==
            s.(calls := s.calls[call := Reversing(f, read + Reversible(s.db, f, hit))])
    ensures forall e: nat :: e in Reversible(s.db, f, hit) <==>
              && e in hit && e < |s.db.earnings| && f < |s.db.refunds|
              && s.db.earnings[e].request == s.db.refunds[f].request && MayReverse(s.db.earnings[e].status)
  {
    assert {} + Reversible(s.db, f, hit) == Reversible(s.db, f, hit);
    forall e: nat {
      RefundReadsExactly(s.db, f, hit, e);
    }
  }

  /** What they find adds up, if nothing comes between. */
  lemma {:induction false} ReadsAddUp(s: State, call: nat, f: nat, hits: seq<set<nat>>)
    requires call in s.calls && s.calls[call] == Refunding(f) && hits != []
    ensures Run(s, Reads(call, hits)) ==
            s.(calls := s.calls[call := Reversing(f, Reversible(s.db, f, AllOf(hits)))])
    decreases |hits|
  {
    var init, hit := hits[..|hits| - 1], hits[|hits| - 1];
    var u, before := Run(s, Reads(call, init)), Reversible(s.db, f, AllOf(init));
    assert Reads(call, hits) == Reads(call, init) + [ReadEarnings(call, hit)];
    RunConcat(s, Reads(call, init), [ReadEarnings(call, hit)]);
    RunOne(u, ReadEarnings(call, hit));
    assert Reversible(s.db, f, AllOf(hits)) == before + Reversible(s.db, f, hit);
    if init == [] {
      assert u == s && before == {};
    } else {
      ReadsAddUp(s, call, f, init);
    }
    ReadAdds(u, call, f, before, hit);
  }

  lemma {:induction false} ReadsOfNoRefund(s: State, call: nat, hits: seq<set<nat>>)
    requires call !in s.calls
    ensures Run(s, Reads(call, hits)) == s
    decreases |hits|
  {
    if hits == [] {
      assert Reads(call, hits) == [];
    } else {
      assert Reads(call, hits)[..|hits| - 1] == Reads(call, hits[..|hits| - 1]);
      RunSnoc(s, Reads(call, hits));
      ReadsOfNoRefund(s, call, hits[..|hits| - 1]);
    }
  }

  /**
   A refund processed at once is its claim and its ledger transaction's reads, one
   for each payment it returns, and writes with nothing in between.
   */
  lemma RefundIsARun(s: State, call: nat, f: nat, hits: seq<set<nat>>)
    requires call !in s.calls && hits != []
    ensures Apply(Run(Apply(s, TakeRefund(call, f)), Reads(call, hits)), FinishRefund(call)).db ==
            CommitRefund(s.db, f, AllOf(hits)).0
  {
    var t := Apply(s, TakeRefund(call, f));
    if CommitRefundTaken(s.db, f).1 == Ok {
      assert t == State(CommitRefundTaken(s.db, f).0, s.locks, s.calls[call := Refunding(f)]);
      ReadsAddUp(t, call, f, hits);
      RefundFinishes(t, call, f, AllOf(hits));
    } else {
      ReadsOfNoRefund(s, call, hits);
    }
  }

  lemma RefundFinishes(t: State, call: nat, f: nat, hit: set<nat>)
    requires call in t.calls && f < |t.db.refunds|
    ensures var u := t.(calls := t.calls[call := Reversing(f, Reversible(t.db, f, hit))]);
            Apply(u, FinishRefund(call)).db == t.db.(earnings := Reverse(t.db.earnings, t.db.refunds[f].request, hit))
  {
    var u := t.(calls := t.calls[call := Reversing(f, Reversible(t.db, f, hit))]);
    ReversalIsWritten(u, call);
    assert CommitReversal(t.db, Reversible(t.db, f, hit)).earnings ==
      Reverse(t.db.earnings, t.db.refunds[f].request, hit);
  }

  lemma ReversalIsWritten(u: State, call: nat)
    requires call in u.calls && u.calls[call].Reversing?
    ensures Apply(u, FinishRefund(call)).db == CommitReversal(u.db, u.calls[call].read)
  {
  }

  /** And one that the provider refuses leaves the refund to be processed again. */
  lemma FailedRefundIsUndone(s: State, call: nat, f: nat)
    requires call !in s.calls
    ensures Apply(Apply(s, TakeRefund(call, f)), ReturnRefund(call)).db == s.db
  {
    if CommitRefundTaken(s.db, f).1 == Ok {
      var t := Apply(s, TakeRefund(call, f));
      assert t == State(CommitRefundTaken(s.db, f).0, s.locks, s.calls[call := Refunding(f)]);
      assert s.db.refunds[f := s.db.refunds[f].(status := RefundDone)][f := s.db.refunds[f]] == s.db.refunds;
    }
  }
}

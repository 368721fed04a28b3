/**
 The rules of the settlement transactions spelled out over the rows: when each
 goes through, and what it writes.
 */
module SettlementRules {
  import opened Prelude
  import opened Settlement

  // ---------------------------------------------------------- accept, claim, sweep

  /** Nothing open or under review on the request. */
  predicate NoneActiveOn(db: Db, r: nat) {
    forall c | 0 <= c < |db.claims| && db.claims[c].request == r ::
      db.claims[c].status != Open && db.claims[c].status != UnderReview
  }

  /** The buyer's own delivered report, not accepted yet, not after the deadline, with no active claim. */
  predicate MayAccept(db: Db, r: nat, user: nat, now: int) {
    && r < |db.requests| && db.requests[r].user == user && db.requests[r].unlocked && !db.requests[r].accepted
    && (db.requests[r].deadline == None || now <= db.requests[r].deadline.value)
    && NoneActiveOn(db, r)
  }

  /** The same, but a deadline must be set. */
  predicate MayClaim(db: Db, r: nat, user: nat, now: int) {
    && r < |db.requests| && db.requests[r].user == user && db.requests[r].unlocked && !db.requests[r].accepted
    && db.requests[r].deadline != None && now <= db.requests[r].deadline.value
    && NoneActiveOn(db, r)
  }

  /** A delivered report whose deadline has come, not accepted, with no active claim. */
  predicate MaySweep(db: Db, r: nat, now: int) {
    && r < |db.requests| && db.requests[r].unlocked && !db.requests[r].accepted
    && db.requests[r].deadline != None && db.requests[r].deadline.value <= now
    && NoneActiveOn(db, r)
  }

  lemma ActiveExactly(db: Db, r: nat)
    ensures HasActiveClaim(db, r) <==> !NoneActiveOn(db, r)
  {
  }

  /** The three checks pass exactly then. */
  lemma ChecksPassExactly(db: Db, r: nat, user: nat, now: int)
    ensures CheckAccept(db, r, user, now) == Ok <==> MayAccept(db, r, user, now)
    ensures CheckClaim(db, r, user, now) == Ok <==> MayClaim(db, r, user, now)
    ensures CheckSweep(db, r, now) <==> MaySweep(db, r, now)
  {
    ActiveExactly(db, r);
  }

  // ------------------------------------------------------- payments and the unlock

  /** A captured payment adds one earning, just EARNED, unless the report is delivered already. */
  lemma CaptureWritesExactly(db: Db, r: nat, seller: nat, paise: nat)
    ensures var t := CommitCapture(db, r, seller, paise);
            if r < |db.requests| && !db.requests[r].unlocked then
              t == db.(earnings := db.earnings + [Earning(r, seller, paise, Earned, None, None)])
            else t == db
  {
  }

  /** A delivery unlocks the report, sets a deadline 604800000 ms ahead unless one is set, and holds what was earned. */
  lemma DeliveryWritesExactly(db: Db, r: nat, now: int)
    requires r < |db.requests|
    ensures var t := CommitUnlock(db, r, now);
            && t.requests == db.requests[r := t.requests[r]]
            && t.requests[r].deadline ==
                 (if db.requests[r].deadline == None then Some(now + 604800000) else db.requests[r].deadline)
            && t.requests[r] == db.requests[r].(unlocked := true, deadline := t.requests[r].deadline)
            && |t.earnings| == |db.earnings|
            && (forall e | 0 <= e < |db.earnings| :: t.earnings[e] ==
                  if db.earnings[e].request == r && db.earnings[e].status == Earned
                  then db.earnings[e].(status := PendingSettlement) else db.earnings[e])
            && t.claims == db.claims && t.refunds == db.refunds && t.records == db.records
  {
  }

  // ---------------------------------------------------------------------- refunds

  /** Statuses from which a refund takes an earning back; one in a payout on its way, or paid, it leaves alone. */
  predicate MayReverse(status: PayStatus) {
    || status == Earned || status == PendingSettlement || status == Available
    || status == Frozen || status == Failed || status == Retryable
  }

  /** A refund processed at once needs a pending row; it reverses exactly what it hits and may reverse. */
  lemma RefundWritesExactly(db: Db, f: nat, hit: set<nat>)
    ensures var (t, reply) := CommitRefund(db, f, hit);
            if f >= |db.refunds| || db.refunds[f].status != RefundPending then t == db && reply == Refused(400)
            else
              && reply == Ok && t.refunds == db.refunds[f := db.refunds[f].(status := RefundDone)]
              && |t.earnings| == |db.earnings|
              && (forall e | 0 <= e < |db.earnings| :: t.earnings[e] ==
                    if e in hit && db.earnings[e].request == db.refunds[f].request && MayReverse(db.earnings[e].status)
                    then db.earnings[e].(status := Reversed) else db.earnings[e])
              && t.requests == db.requests && t.claims == db.claims && t.records == db.records
  {
  }

  /** So does the divided one: what it may reverse is decided when it reads. */
  lemma RefundReadsExactly(db: Db, f: nat, hit: set<nat>, e: nat)
    ensures e in Reversible(db, f, hit) <==>
              && e in hit && e < |db.earnings| && f < |db.refunds|
              && db.earnings[e].request == db.refunds[f].request && MayReverse(db.earnings[e].status)
  {
  }

  /** Taking and rejecting a refund need a pending row and write its status only. */
  lemma RefundRowsWriteExactly(db: Db, f: nat)
    ensures var pending := f < |db.refunds| && db.refunds[f].status == RefundPending;
            && CommitRefundTaken(db, f) ==
                 (if pending then (db.(refunds := db.refunds[f := db.refunds[f].(status := RefundDone)]), Ok)
                  else (db, Refused(400)))
            && CommitRefundReject(db, f) ==
                 (if pending then (db.(refunds := db.refunds[f := db.refunds[f].(status := RefundRejected)]), Ok)
                  else (db, Refused(400)))
  {
  }

  // ---------------------------------------------------------------- payout records

  /** Only record k and the status of the earnings joined to it changed. */
  ghost predicate RecordSet(a: Db, b: Db, k: nat, record: Record) {
    && k < |a.records| && b.records == a.records[k := record]
    && |b.earnings| == |a.earnings|
    && (forall e | 0 <= e < |a.earnings| :: b.earnings[e] ==
          if a.earnings[e].record == Some(k) then a.earnings[e].(status := record.status) else a.earnings[e])
    && b.requests == a.requests && b.claims == a.claims && b.refunds == a.refunds
  }

  /** No other record has the payout id. */
  predicate FreshId(db: Db, k: nat, pid: nat) {
    forall j | 0 <= j < |db.records| && j != k :: db.records[j].payoutId != Some(pid)
  }

  /** A failed send: on the third attempt, by the count that was read, to a human; else to another attempt. */
  function AfterFailure(record: Record, seen: nat): Record {
    record.(status := if seen >= 2 then ManualReview else Retryable, retries := record.retries + 1)
  }

  /** What a send leaves, whose handler read the count `seen` and got the provider's answer `sent`. */
  lemma SendWritesExactly(db: Db, k: nat, seen: nat, pid: nat)
    requires k < |db.records|
    ensures RecordSet(db, CommitSendFailed(db, k, seen), k, AfterFailure(db.records[k], seen))
    ensures RecordSet(db, CommitSent(db, k, seen, pid), k,
              if (db.records[k].status == Requested || db.records[k].status == Retryable) && FreshId(db, k, pid)
              then db.records[k].(status := Processing, payoutId := Some(pid))
              else AfterFailure(db.records[k], seen))
  {
    assert PayoutIdUsed(db, k, pid) <==> !FreshId(db, k, pid);
  }

  /** The provider took the transfer of a record that may be sent, under an id no other record has. */
  predicate MaySend(db: Db, k: nat, sent: Option<nat>) {
    && k < |db.records| && (db.records[k].status == Requested || db.records[k].status == Retryable)
    && sent != None && FreshId(db, k, sent.value)
  }

  /** An undivided send: nothing on a record that may not be sent, else the provider's id or a failed attempt. */
  lemma SendNowWritesExactly(db: Db, k: nat, sent: Option<nat>)
    ensures if k >= |db.records| || (db.records[k].status != Requested && db.records[k].status != Retryable)
            then SendNow(db, k, sent) == db
            else RecordSet(db, SendNow(db, k, sent), k,
                   if MaySend(db, k, sent) then db.records[k].(status := Processing, payoutId := sent)
                   else AfterFailure(db.records[k], db.records[k].retries))
  {
    if k < |db.records| {
      SendWritesExactly(db, k, db.records[k].retries, sent.GetOr(0));
    }
  }

  /** What an event makes of the record it names, if anything. */
  function AfterEventOn(record: Record, event: PayoutEvent): Record {
    match event
    case PayoutProcessed => if record.status == Processing then record.(status := Paid) else record
    case PayoutFailed =>
      if record.status == Processing then record.(status := if record.retries >= 3 then ManualReview else Retryable)
      else record
    case PayoutReversed => if record.status == Paid then record.(status := Reversed) else record
  }

  /** No record has the payout id but k. */
  predicate OnlyRecordOf(db: Db, k: nat, pid: nat) {
    k < |db.records| && db.records[k].payoutId == Some(pid) && FreshId(db, k, pid)
  }

  /** An event on an unknown id, or that finds its record in another status, changes nothing. */
  lemma EventWritesExactly(db: Db, pid: nat, event: PayoutEvent)
    ensures (forall k | 0 <= k < |db.records| :: db.records[k].payoutId != Some(pid)) ==>
              CommitWebhook(db, pid, event) == db
    ensures forall k: nat | OnlyRecordOf(db, k, pid) ::
              var after := AfterEventOn(db.records[k], event);
              if after == db.records[k] then CommitWebhook(db, pid, event) == db
              else RecordSet(db, CommitWebhook(db, pid, event), k, after)
  {
    forall k: nat | OnlyRecordOf(db, k, pid) ensures FindRecord(db.records, pid) == Some(k) {
      var found := FindRecord(db.records, pid);
    }
  }

  /** A review resets the count and sends again, or writes off with the count that was read. */
  lemma ReviewWritesExactly(db: Db, k: nat, seen: nat, retry: bool)
    requires k < |db.records|
    ensures RecordSet(db, CommitManual(db, k, seen, retry), k,
              if retry then db.records[k].(status := Retryable, retries := 0)
              else db.records[k].(status := Reversed, retries := seen))
  {
  }

  /** The available earnings of an expert join one new record; if one has moved on since, nothing is written. */
  lemma PayoutWritesExactly(db: Db, seller: nat, ids: set<nat>, total: nat)
    ensures var (t, reply) := CommitPayout(db, seller, ids, total);
            if exists e :: e in ids && (e >= |db.earnings| || db.earnings[e].status != Available) then
              t == db && reply == Refused(409)
            else
              && reply == Ok && t.records == db.records + [Record(seller, total, Requested, 0, None)]
              && |t.earnings| == |db.earnings|
              && (forall e | 0 <= e < |db.earnings| :: t.earnings[e] ==
                    if e in ids then db.earnings[e].(status := Requested, record := Some(|db.records|))
                    else db.earnings[e])
              && t.requests == db.requests && t.claims == db.claims && t.refunds == db.refunds
  {
  }

  /** What a payout request finds: the expert's own earnings that are available, every one. */
  lemma PayoutReadsExactly(es: seq<Earning>, seller: nat, e: nat)
    ensures e in Claimable(es, seller) <==> e < |es| && es[e].seller == seller && es[e].status == Available
  {
  }

  // ----------------------------------------------------------------------- claims

  /** A unique key refuses the decision: a second refund of the claim, or a second active claim on the request. */
  ghost predicate Conflicts(db: Db, c: nat, seen: ClaimStatus, target: ClaimStatus)
    requires c < |db.claims|
  {
    || (target == RefundApproved && seen != RefundApproved
        && exists f :: 0 <= f < |db.refunds| && db.refunds[f].claim == c)
    || (target == UnderReview
        && exists d :: 0 <= d < |db.claims| && d != c && db.claims[d].request == db.claims[c].request
                       && (db.claims[d].status == Open || db.claims[d].status == UnderReview))
  }

  /** What a decision writes whose handler saw the claim as `seen`. */
  lemma DecisionWritesExactly(db: Db, c: nat, seen: ClaimStatus, target: ClaimStatus, now: int)
    requires c < |db.claims| && db.claims[c].request < |db.requests|
    ensures var (t, reply) := CommitResolve(db, c, seen, target, now);
            var claim := db.claims[c];
            if Conflicts(db, c, seen, target) then t == db && reply == Refused(409)
            else
              && reply == Ok
              && t.claims == db.claims[c := claim.(status := target, resolvedAt :=
                   if target == Resolved || target == Rejected || target == RefundProcessed then Some(now)
                   else claim.resolvedAt)]
              && t.refunds ==
                   (if target == RefundApproved && seen != RefundApproved then
                      db.refunds + [Refund(c, claim.request,
                        if db.requests[claim.request].agreedFee == None then 0
                        else db.requests[claim.request].agreedFee.value, RefundPending)]
                    else db.refunds)
              && |t.earnings| == |db.earnings|
              && (forall e | 0 <= e < |db.earnings| :: t.earnings[e] ==
                    if target == Rejected && db.earnings[e].request == claim.request && db.earnings[e].status == Frozen
                    then db.earnings[e].(status := Available, reason := Some(ClaimRejected)) else db.earnings[e])
              && t.requests == db.requests && t.records == db.records
  {
  }
}

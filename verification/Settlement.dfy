/**
 Verification settlement: requests, claims, refunds, expert earnings and payout
 records, and the transactions of the handlers that change them. Rows are never
 deleted, so a row's id is its index. Every `Commit...` function is one database
 transaction; a transaction that fails leaves the tables as they were.
 */
module Settlement {
  import opened Prelude

  datatype ClaimStatus = Open | UnderReview | Resolved | Rejected | RefundApproved | RefundProcessed {
    predicate Active() { Open? || UnderReview? }
    predicate Terminal() { Resolved? || Rejected? || RefundProcessed? }
  }

  /** Earnings and payout records share these statuses; a record uses those from Requested on. */
  datatype PayStatus =
    | Earned | PendingSettlement | Frozen | Available
    | Requested | Processing | Paid | Failed | Retryable | ManualReview | Reversed

  datatype Reason = BuyerAccepted | ClaimWindowExpired | ClaimRejected

  datatype VRequest = VRequest(user: nat, unlocked: bool, deadline: Option<int>, accepted: bool, agreedFee: Option<nat>)
  datatype Claim = Claim(request: nat, status: ClaimStatus, resolvedAt: Option<int>)
  datatype RefundStatus = RefundPending | RefundDone | RefundRejected
  datatype Refund = Refund(claim: nat, request: nat, amount: nat, status: RefundStatus)
  datatype Earning = Earning(
    request: nat, seller: nat, paise: nat, status: PayStatus, reason: Option<Reason>, record: Option<nat>)
  datatype Record = Record(seller: nat, total: nat, status: PayStatus, retries: nat, payoutId: Option<nat>)

  datatype Db = Db(
    requests: seq<VRequest>,
    claims: seq<Claim>,
    refunds: seq<Refund>,
    earnings: seq<Earning>,
    records: seq<Record>)

  datatype Reply = Ok | Refused(code: nat)

  const CLAIM_WINDOW_MS := 7 * 24 * 60 * 60 * 1000
  const MAX_PAYOUT_RETRY_ATTEMPTS := 3
  const HELD := {Earned, PendingSettlement}
  const REVERSIBLE := {Earned, PendingSettlement, Available, Frozen, Failed, Retryable}
  const SENDABLE := {Requested, Retryable}

  // ------------------------------------------------------------ bulk updates

  /** Release every earning of a request whose status is in `from`. */
  function Release(es: seq<Earning>, r: nat, reason: Reason, from: set<PayStatus>): (res: seq<Earning>)
    ensures |res| == |es|
  {
    seq(|es|, i requires 0 <= i < |es| =>
      if es[i].request == r && es[i].status in from then es[i].(status := Available, reason := Some(reason)) else es[i])
  }

  function Freeze(es: seq<Earning>, r: nat): (res: seq<Earning>)
    ensures |res| == |es|
  {
    seq(|es|, i requires 0 <= i < |es| =>
      if es[i].request == r && es[i].status in HELD then es[i].(status := Frozen) else es[i])
  }

  function Promote(es: seq<Earning>, r: nat): (res: seq<Earning>)
    ensures |res| == |es|
  {
    seq(|es|, i requires 0 <= i < |es| =>
      if es[i].request == r && es[i].status == Earned then es[i].(status := PendingSettlement) else es[i])
  }

  /** Claim the earnings `ids` into payout record `k`. */
  function Join(es: seq<Earning>, ids: set<nat>, k: nat): (res: seq<Earning>)
    ensures |res| == |es|
  {
    seq(|es|, i requires 0 <= i < |es| =>
      if i in ids then es[i].(status := Requested, record := Some(k)) else es[i])
  }

  /** Give every earning of payout record `k` the record's new status. */
  function Follow(es: seq<Earning>, k: nat, status: PayStatus): (res: seq<Earning>)
    ensures |res| == |es|
  {
    seq(|es|, i requires 0 <= i < |es| => if es[i].record == Some(k) then es[i].(status := status) else es[i])
  }

  /** A processed refund reverses the earnings behind the payments it returns, where the status allows. */
  function Reverse(es: seq<Earning>, r: nat, hit: set<nat>): (res: seq<Earning>)
    ensures |res| == |es|
  {
    seq(|es|, i requires 0 <= i < |es| =>
      if i in hit && es[i].request == r && es[i].status in REVERSIBLE then es[i].(status := Reversed) else es[i])
  }

  // ------------------------------------------------- payments and the unlock

  function CommitCapture(db: Db, r: nat, seller: nat, paise: nat): Db {
    if r < |db.requests| && !db.requests[r].unlocked then
      db.(earnings := db.earnings + [Earning(r, seller, paise, Earned, None, None)])
    else db
  }

  /** Report delivered: the deadline is set once, a repeat never moves it. */
  function CommitUnlock(db: Db, r: nat, now: int): Db {
    if r >= |db.requests| then db
    else
      var request := db.requests[r];
      var deadline := if request.deadline.None? then Some(now + CLAIM_WINDOW_MS) else request.deadline;
      db.(requests := db.requests[r := request.(unlocked := true, deadline := deadline)],
          earnings := Promote(db.earnings, r))
  }

  // ----------------------------------------- accept, claim, sweep (row lock)

  predicate HasActiveClaim(db: Db, r: nat) {
    exists c | 0 <= c < |db.claims| :: db.claims[c].request == r && db.claims[c].status.Active()
  }

  function CheckAccept(db: Db, r: nat, user: nat, now: int): Reply {
    if r >= |db.requests| || db.requests[r].user != user then Refused(404)
    else if !db.requests[r].unlocked then Refused(400)
    else if db.requests[r].accepted then Refused(409)
    else if db.requests[r].deadline.Some? && now > db.requests[r].deadline.value then Refused(409)
    else if HasActiveClaim(db, r) then Refused(409)
    else Ok
  }

  function CommitAccept(db: Db, r: nat): Db
    requires r < |db.requests|
  {
    db.(requests := db.requests[r := db.requests[r].(accepted := true)],
        earnings := Release(db.earnings, r, BuyerAccepted, HELD))
  }

  function CheckClaim(db: Db, r: nat, user: nat, now: int): Reply {
    if r >= |db.requests| || db.requests[r].user != user then Refused(404)
    else if !db.requests[r].unlocked then Refused(400)
    else if db.requests[r].deadline.None? || now > db.requests[r].deadline.value then Refused(409)
    else if db.requests[r].accepted then Refused(409)
    else if HasActiveClaim(db, r) then Refused(409)
    else Ok
  }

  /** The insert itself is still subject to the index on active claims. */
  function CommitClaim(db: Db, r: nat): (Db, Reply) {
    if HasActiveClaim(db, r) then (db, Refused(500))
    else
      (db.(claims := db.claims + [Claim(r, Open, None)], earnings := Freeze(db.earnings, r)), Ok)
  }

  predicate CheckSweep(db: Db, r: nat, now: int) {
    && r < |db.requests|
    && db.requests[r].unlocked
    && db.requests[r].deadline.Some? && db.requests[r].deadline.value <= now
    && !db.requests[r].accepted
    && !HasActiveClaim(db, r)
  }

  function CommitSweep(db: Db, r: nat): Db {
    db.(earnings := Release(db.earnings, r, ClaimWindowExpired, HELD))
  }

  // ------------------------------------------------------------------- claims

  function CheckResolve(db: Db, c: nat): Reply {
    if c >= |db.claims| then Refused(404)
    else if db.claims[c].status.Terminal() then Refused(400)
    else Ok
  }

  predicate HasRefund(db: Db, c: nat) {
    exists f | 0 <= f < |db.refunds| :: db.refunds[f].claim == c
  }

  /** Another active claim exists on the same request: the index refuses a second one. */
  predicate ActiveElsewhere(db: Db, c: nat)
    requires c < |db.claims|
  {
    exists d | 0 <= d < |db.claims| ::
      d != c && db.claims[d].request == db.claims[c].request && db.claims[d].status.Active()
  }

  /** A refund row is wanted only when the claim was not seen as approved already. */
  predicate WantsRefund(seen: ClaimStatus, target: ClaimStatus) {
    target == RefundApproved && seen != RefundApproved
  }

  predicate ResolveConflicts(db: Db, c: nat, seen: ClaimStatus, target: ClaimStatus)
    requires c < |db.claims|
  {
    (WantsRefund(seen, target) && HasRefund(db, c)) || (target == UnderReview && ActiveElsewhere(db, c))
  }

  /** The resolve transaction; `seen` is the status the handler read before it. */
  function CommitResolve(db: Db, c: nat, seen: ClaimStatus, target: ClaimStatus, now: int): (Db, Reply)
    requires c < |db.claims| && db.claims[c].request < |db.requests|
  {
    if ResolveConflicts(db, c, seen, target) then (db, Refused(409))
    else
      var claim := db.claims[c];
      var refunds :=
        if WantsRefund(seen, target) then
          db.refunds + [Refund(c, claim.request, db.requests[claim.request].agreedFee.GetOr(0), RefundPending)]
        else db.refunds;
      var earnings :=
        if target == Rejected then Release(db.earnings, claim.request, ClaimRejected, {Frozen}) else db.earnings;
      (db.(claims := db.claims[c := claim.(status := target,
                                           resolvedAt := if target.Terminal() then Some(now) else claim.resolvedAt)],
           refunds := refunds, earnings := earnings), Ok)
  }

  /** The buyer's money is returned; `hit` are the earnings behind the payments reversed. */
  function CommitRefund(db: Db, f: nat, hit: set<nat>): (Db, Reply) {
    if f >= |db.refunds| || db.refunds[f].status != RefundPending then (db, Refused(400))
    else
      (db.(refunds := db.refunds[f := db.refunds[f].(status := RefundDone)],
           earnings := Reverse(db.earnings, db.refunds[f].request, hit)), Ok)
  }

  /** Those of `hit`, earnings behind the payments a refund returns, that may be reversed as they are now. */
  function Reversible(db: Db, f: nat, hit: set<nat>): set<nat> {
    set e: nat | e in hit && e < |db.earnings| && f < |db.refunds|
                 && db.earnings[e].request == db.refunds[f].request && db.earnings[e].status in REVERSIBLE
  }

  /** The write that follows such a read names the earnings only, whatever their status is by then. */
  function CommitReversal(db: Db, read: set<nat>): Db {
    db.(earnings := seq(|db.earnings|, i requires 0 <= i < |db.earnings| =>
      if i in read then db.earnings[i].(status := Reversed) else db.earnings[i]))
  }

  /** The claiming of a refund row, before the provider is called. */
  function CommitRefundTaken(db: Db, f: nat): (Db, Reply) {
    if f >= |db.refunds| || db.refunds[f].status != RefundPending then (db, Refused(400))
    else (db.(refunds := db.refunds[f := db.refunds[f].(status := RefundDone)]), Ok)
  }

  function CommitRefundReject(db: Db, f: nat): (Db, Reply) {
    if f >= |db.refunds| || db.refunds[f].status != RefundPending then (db, Refused(400))
    else (db.(refunds := db.refunds[f := db.refunds[f].(status := RefundRejected)]), Ok)
  }

  // ------------------------------------------------------------------ payouts

  /** The earnings a payout request finds available. */
  function Claimable(es: seq<Earning>, seller: nat): set<nat> {
    set i: nat | i < |es| && es[i].seller == seller && es[i].status == Available
  }

  /** Sum of the paise of the earnings `ids` among the first n. */
  function SumOf(es: seq<Earning>, ids: set<nat>, n: nat): nat
    requires n <= |es|
  {
    if n == 0 then 0 else SumOf(es, ids, n - 1) + if n - 1 in ids then es[n - 1].paise else 0
  }

  predicate StillAvailable(es: seq<Earning>, ids: set<nat>) {
    forall i | i in ids :: i < |es| && es[i].status == Available
  }

  /** Create the record and claim the earnings read before; roll back if any of them moved on. */
  function CommitPayout(db: Db, seller: nat, ids: set<nat>, total: nat): (Db, Reply) {
    if !StillAvailable(db.earnings, ids) then (db, Refused(409))
    else
      (db.(records := db.records + [Record(seller, total, Requested, 0, None)],
           earnings := Join(db.earnings, ids, |db.records|)), Ok)
  }

  function CheckSend(db: Db, k: nat): Reply {
    if k >= |db.records| then Refused(404)
    else if db.records[k].status !in SENDABLE then Refused(400)
    else Ok
  }

  /** Another record holds this payout id; writing it again to the same row is no conflict. */
  predicate PayoutIdUsed(db: Db, k: nat, pid: nat) {
    exists j | 0 <= j < |db.records| :: j != k && db.records[j].payoutId == Some(pid)
  }

  function SetRecord(db: Db, k: nat, record: Record): Db
    requires k < |db.records|
  {
    db.(records := db.records[k := record], earnings := Follow(db.earnings, k, record.status))
  }

  /** The provider call failed (or the guarded update did): the status is written unconditionally. */
  function CommitSendFailed(db: Db, k: nat, retriesSeen: nat): Db
    requires k < |db.records|
  {
    var next := if retriesSeen + 1 >= MAX_PAYOUT_RETRY_ATTEMPTS then ManualReview else Retryable;
    SetRecord(db, k, db.records[k].(status := next, retries := db.records[k].retries + 1))
  }

  /** The provider took the transfer: guarded by the status, and a lost guard is handled as a failure. */
  function CommitSent(db: Db, k: nat, retriesSeen: nat, pid: nat): Db
    requires k < |db.records|
  {
    if db.records[k].status in SENDABLE && !PayoutIdUsed(db, k, pid) then
      SetRecord(db, k, db.records[k].(status := Processing, payoutId := Some(pid)))
    else CommitSendFailed(db, k, retriesSeen)
  }

  datatype PayoutEvent = PayoutProcessed | PayoutFailed | PayoutReversed

  /** The record a provider event names, by its unique payout id. */
  function FindRecord(rs: seq<Record>, pid: nat): (k: Option<nat>)
    ensures k.Some? ==> k.value < |rs| && rs[k.value].payoutId == Some(pid)
    ensures k.None? ==> forall i | 0 <= i < |rs| :: rs[i].payoutId != Some(pid)
  {
    if rs == [] then None
    else if rs[|rs| - 1].payoutId == Some(pid) then Some(|rs| - 1)
    else FindRecord(rs[..|rs| - 1], pid)
  }

  function CommitWebhook(db: Db, pid: nat, event: PayoutEvent): Db {
    var k := FindRecord(db.records, pid);
    if k.None? then db
    else
      var record := db.records[k.value];
      match event
      case PayoutProcessed =>
        if record.status == Processing then SetRecord(db, k.value, record.(status := Paid)) else db
      case PayoutFailed =>
        if record.status == Processing then
          SetRecord(db, k.value, record.(status :=
            if record.retries >= MAX_PAYOUT_RETRY_ATTEMPTS then ManualReview else Retryable))
        else db
      case PayoutReversed =>
        if record.status == Paid then SetRecord(db, k.value, record.(status := Reversed)) else db
  }

  /** The status an event settles a record in: PAID, or REVERSED. */
  function EndStatus(paid: bool): PayStatus {
    if paid then Paid else Reversed
  }

  /** The first of an event's two statements: the record alone, guarded by its status. */
  function CommitRecordStatus(db: Db, k: nat, status: PayStatus): Db
    requires k < |db.records|
  {
    db.(records := db.records[k := db.records[k].(status := status)])
  }

  /** The second: the earnings of record k, whatever has become of the record since. */
  function CommitFollow(db: Db, k: nat, paid: bool): Db {
    db.(earnings := Follow(db.earnings, k, EndStatus(paid)))
  }

  /** A reported failure, decided on the retry count read before. */
  function CommitFailing(db: Db, k: nat, review: bool): Db
    requires k < |db.records|
  {
    if db.records[k].status != Processing then db
    else SetRecord(db, k, db.records[k].(status := if review then ManualReview else Retryable))
  }

  function CheckManual(db: Db, k: nat): Reply {
    if k >= |db.records| then Refused(404)
    else if db.records[k].status != ManualReview then Refused(400)
    else Ok
  }

  /** Resolve a MANUAL_REVIEW record: retry it with a fresh count, or write it off. */
  function CommitManual(db: Db, k: nat, retriesSeen: nat, retry: bool): Db
    requires k < |db.records|
  {
    SetRecord(db, k, db.records[k].(status := if retry then Retryable else Reversed,
                                    retries := if retry then 0 else retriesSeen))
  }

  // -------------------------------------------------------------- interleaving

  datatype LockedOp = Accepting | Claiming | Sweeping

  /**
   What a handler read before its next statement. A provider event goes from
   `Delivering` (the record was looked up by the payout id) to `Following` (the
   record is settled, its earnings are not) or `Failing`. A refund is `Refunding`
   while the provider is called and `Reversing` once its ledger transaction has
   read the status of some earnings, `read` being those it will reverse.
   */
  datatype Call =
    | Resolving(claim: nat, seen: ClaimStatus)
    | RequestingPayout(seller: nat, ids: set<nat>, total: nat)
    | Sending(record: nat, retriesSeen: nat)
    | Reviewing(record: nat, retriesSeen: nat, retry: bool)
    | Delivering(record: nat, event: PayoutEvent)
    | Following(record: nat, paid: bool)
    | Failing(record: nat, review: bool)
    | Refunding(refund: nat)
    | Reversing(refund: nat, read: set<nat>)

  /** `locks` are the request rows locked FOR UPDATE, `calls` the handlers between read and transaction. */
  datatype State = State(db: Db, locks: map<nat, LockedOp>, calls: map<nat, Call>)

  datatype Step =
    | Capture(r: nat, seller: nat, paise: nat)
    | Unlock(r: nat, now: int)
    | StartAccept(r: nat, user: nat, now: int)
    | StartClaim(r: nat, user: nat, now: int)
    | StartSweep(r: nat, now: int)
    | FinishLocked(r: nat)
    | RollBack(r: nat)
    | ReadClaim(call: nat, c: nat)
    | WriteClaim(call: nat, target: ClaimStatus, now: int)
    | Resolve(c: nat, target: ClaimStatus, now: int)
    | ProcessRefund(f: nat, hit: set<nat>)
    | RejectRefund(f: nat)
    | ReadPayout(call: nat, seller: nat)
    | WritePayout(call: nat)
    | ReadRecord(call: nat, k: nat)
    | WriteSent(call: nat, sent: Option<nat>)
    | Send(k: nat, sent: Option<nat>)
    | ReadManual(call: nat, k: nat, retry: bool)
    | WriteManual(call: nat)
    | Review(k: nat, retry: bool)
    | Webhook(pid: nat, event: PayoutEvent)
    | Deliver(call: nat, pid: nat, event: PayoutEvent)
    | WriteEvent(call: nat)
    | FinishEvent(call: nat)
    | TakeRefund(call: nat, f: nat)
    | ReadEarnings(call: nat, hit: set<nat>)
    | FinishRefund(call: nat)
    | ReturnRefund(call: nat)
    | Abandon(call: nat)

  predicate Running(s: State, call: nat) {
    call in s.calls
  }

  function EndCall(s: State, call: nat, db: Db): State {
    s.(db := db, calls := s.calls - {call})
  }

  /** The transaction under a request's row lock, after its checks have passed. */
  function CommitLocked(db: Db, r: nat, op: LockedOp): Db {
    match op
    case Accepting => if r < |db.requests| then CommitAccept(db, r) else db
    case Claiming => CommitClaim(db, r).0
    case Sweeping => CommitSweep(db, r)
  }

  /** Whole resolve handler with nothing in between its read and its transaction. */
  function ResolveNow(db: Db, c: nat, target: ClaimStatus, now: int): (Db, Reply) {
    var check := CheckResolve(db, c);
    if check != Ok then (db, check)
    else if db.claims[c].request >= |db.requests| then (db, Refused(500))
    else CommitResolve(db, c, db.claims[c].status, target, now)
  }

  /** Whole send handler with nothing in between; `sent` is the provider's payout id, if it took the transfer. */
  function SendNow(db: Db, k: nat, sent: Option<nat>): Db {
    if CheckSend(db, k) != Ok then db
    else if sent.Some? then CommitSent(db, k, db.records[k].retries, sent.value)
    else CommitSendFailed(db, k, db.records[k].retries)
  }

  function ReviewNow(db: Db, k: nat, retry: bool): Db {
    if CheckManual(db, k) != Ok then db else CommitManual(db, k, db.records[k].retries, retry)
  }

  /** The step that continues a handler after its read. */
  predicate Resumes(call: Call, step: Step) {
    match call
    case Resolving(_, _) => step.WriteClaim? && step.target != Open
    case RequestingPayout(_, _, _) => step.WritePayout?
    case Sending(_, _) => step.WriteSent?
    case Reviewing(_, _, _) => step.WriteManual?
    case Delivering(_, _) => step.WriteEvent?
    case Following(_, _) => step.FinishEvent?
    case Failing(_, _) => step.FinishEvent?
    case Refunding(_) => step.ReadEarnings? || step.ReturnRefund?
    case Reversing(_, _) => step.ReadEarnings? || step.FinishRefund?
  }

  /** The next statement of a handler that read earlier; the state may have moved on since. */
  function WriteBack(db: Db, call: Call, step: Step): Db
    requires Resumes(call, step)
  {
    match call
    case Resolving(c, seen) =>
      if c < |db.claims| && db.claims[c].request < |db.requests|
      then CommitResolve(db, c, seen, step.target, step.now).0 else db
    case RequestingPayout(seller, ids, total) => CommitPayout(db, seller, ids, total).0
    case Sending(k, retriesSeen) =>
      if k >= |db.records| then db
      else if step.sent.Some? then CommitSent(db, k, retriesSeen, step.sent.value)
      else CommitSendFailed(db, k, retriesSeen)
    case Reviewing(k, retriesSeen, retry) =>
      if k < |db.records| then CommitManual(db, k, retriesSeen, retry) else db
    case Delivering(k, event) =>
      if SettlesNow(db, k, event) then CommitRecordStatus(db, k, EndStatus(event == PayoutProcessed)) else db
    case Following(k, paid) => CommitFollow(db, k, paid)
    case Failing(k, review) => if k < |db.records| then CommitFailing(db, k, review) else db
    case Refunding(f) =>
      if step.ReturnRefund? && f < |db.refunds| then
        db.(refunds := db.refunds[f := db.refunds[f].(status := RefundPending)])
      else db
    case Reversing(_, read) => if step.FinishRefund? then CommitReversal(db, read) else db
  }

  /** An event's guarded update of the record goes through. */
  predicate SettlesNow(db: Db, k: nat, event: PayoutEvent) {
    k < |db.records| && event != PayoutFailed
    && db.records[k].status == if event == PayoutProcessed then Processing else Paid
  }

  /** What an event's handler goes on to, after its guarded update or its second read. */
  function AfterEvent(db: Db, k: nat, event: PayoutEvent): Option<Call> {
    if SettlesNow(db, k, event) then Some(Following(k, event == PayoutProcessed))
    else if event == PayoutFailed && k < |db.records| && db.records[k].status == Processing then
      Some(Failing(k, db.records[k].retries >= MAX_PAYOUT_RETRY_ATTEMPTS))
    else None
  }

  /** What the handler goes on with, if this was not its last statement. */
  function NextCall(db: Db, call: Call, step: Step): Option<Call>
    requires Resumes(call, step)
  {
    match call
    case Delivering(k, event) => AfterEvent(db, k, event)
    case Refunding(f) => if step.ReadEarnings? then Some(Reversing(f, Reversible(db, f, step.hit))) else None
    case Reversing(f, read) =>
      if step.ReadEarnings? then Some(Reversing(f, read + Reversible(db, f, step.hit))) else None
    case _ => None
  }

  function Resume(s: State, call: nat, step: Step): State {
    if !Running(s, call) || !Resumes(s.calls[call], step) then s
    else
      var db := WriteBack(s.db, s.calls[call], step);
      var next := NextCall(s.db, s.calls[call], step);
      if next.Some? then s.(db := db, calls := s.calls[call := next.value]) else EndCall(s, call, db)
  }

  function StartCall(s: State, call: nat, c: Call): State {
    if Running(s, call) then s else s.(calls := s.calls[call := c])
  }

  function StartLocked(s: State, r: nat, op: LockedOp): State {
    if r in s.locks then s else s.(locks := s.locks[r := op])
  }

  /** Steps that do not continue a handler begun before. */
  function Handle(s: State, step: Step): State {
    var db := s.db;
    match step
    case Capture(r, seller, paise) => s.(db := CommitCapture(db, r, seller, paise))
    case Unlock(r, now) => if r in s.locks then s else s.(db := CommitUnlock(db, r, now))
    case StartAccept(r, user, now) => if CheckAccept(db, r, user, now) == Ok then StartLocked(s, r, Accepting) else s
    case StartClaim(r, user, now) => if CheckClaim(db, r, user, now) == Ok then StartLocked(s, r, Claiming) else s
    case StartSweep(r, now) => if CheckSweep(db, r, now) then StartLocked(s, r, Sweeping) else s
    case FinishLocked(r) =>
      if r in s.locks then s.(db := CommitLocked(db, r, s.locks[r]), locks := s.locks - {r}) else s
    case RollBack(r) => s.(locks := s.locks - {r})
    case ReadClaim(call, c) =>
      if CheckResolve(db, c) == Ok then StartCall(s, call, Resolving(c, db.claims[c].status)) else s
    case Resolve(c, target, now) => if target == Open then s else s.(db := ResolveNow(db, c, target, now).0)
    case ProcessRefund(f, hit) => s.(db := CommitRefund(db, f, hit).0)
    case RejectRefund(f) => s.(db := CommitRefundReject(db, f).0)
    case ReadPayout(call, seller) =>
      var ids := Claimable(db.earnings, seller);
      if ids == {} then s
      else StartCall(s, call, RequestingPayout(seller, ids, SumOf(db.earnings, ids, |db.earnings|)))
    case ReadRecord(call, k) =>
      if CheckSend(db, k) == Ok then StartCall(s, call, Sending(k, db.records[k].retries)) else s
    case Send(k, sent) => s.(db := SendNow(db, k, sent))
    case ReadManual(call, k, retry) =>
      if CheckManual(db, k) == Ok then StartCall(s, call, Reviewing(k, db.records[k].retries, retry)) else s
    case Review(k, retry) => s.(db := ReviewNow(db, k, retry))
    case Webhook(pid, event) => s.(db := CommitWebhook(db, pid, event))
    case Deliver(call, pid, event) =>
      var k := FindRecord(db.records, pid);
      if k.Some? then StartCall(s, call, Delivering(k.value, event)) else s
    case TakeRefund(call, f) =>
      if Running(s, call) || CommitRefundTaken(db, f).1 != Ok then s
      else StartCall(s.(db := CommitRefundTaken(db, f).0), call, Refunding(f))
    case Abandon(call) => EndCall(s, call, db)
    case _ => s
  }

  /** Steps that continue a handler. */
  predicate Continues(step: Step) {
    || step.WriteClaim? || step.WritePayout? || step.WriteSent? || step.WriteManual?
    || step.WriteEvent? || step.FinishEvent? || step.ReadEarnings? || step.FinishRefund? || step.ReturnRefund?
  }

  /**
   One step of the system; a step that is refused or blocked changes nothing. A
   handler may be abandoned between its statements (its process stops, or an
   error ends it), and a transaction under a row lock may be rolled back.
   */
  function Apply(s: State, step: Step): State {
    if Continues(step) then Resume(s, step.call, step) else Handle(s, step)
  }

  function Run(s: State, steps: seq<Step>): State
    decreases |steps|
  {
    if steps == [] then s else Run(Apply(s, steps[0]), steps[1..])
  }

  lemma {:induction false} RunConcat(s: State, a: seq<Step>, b: seq<Step>)
    ensures Run(s, a + b) == Run(Run(s, a), b)
    decreases |a|
  {
    if a == [] {
      assert a + b == b;
    } else {
      assert (a + b)[1..] == a[1..] + b;
      RunConcat(Apply(s, a[0]), a[1..], b);
    }
  }

  lemma RunOne(s: State, step: Step)
    ensures Run(s, [step]) == Apply(s, step)
  {
    assert [step][1..] == [];
  }

  lemma RunSnoc(s: State, steps: seq<Step>)
    requires steps != []
    ensures Run(s, steps) == Apply(Run(s, steps[..|steps| - 1]), steps[|steps| - 1])
  {
    var init, last := steps[..|steps| - 1], steps[|steps| - 1];
    assert init + [last] == steps;
    RunConcat(s, init, [last]);
    RunOne(Run(s, init), last);
  }
}

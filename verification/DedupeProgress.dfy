/**
 Reporter posts, continued: the protocol never deadlocks, every run is bounded,
 and of concurrent creates that duplicate each other exactly one commits.
 */
module DedupeProgress {
  import opened Prelude
  import opened HashReuse
  import opened DedupeProtocol

  // ------------------------------------------------------------------ progress

  /** Steps a transaction may still take. */
  function Remaining(p: Phase): nat {
    match p
    case Waiting => 5
    case Ready(_, write) => if write.Some? then 4 else 2
    case Locked(_, _) => 3
    case Checked(_, _) => 2
    case Staged(_, _) => 1
    case Finished(_) => 0
  }

  function TotalRemaining(txs: seq<Tx>): nat {
    if txs == [] then 0 else Remaining(txs[0].phase) + TotalRemaining(txs[1..])
  }

  lemma {:induction false} TotalAfterUpdate(txs: seq<Tx>, i: nat, tx: Tx)
    requires i < |txs|
    ensures TotalRemaining(txs[i := tx]) == TotalRemaining(txs) - Remaining(txs[i].phase) + Remaining(tx.phase)
  {
    if i == 0 {
      assert txs[0 := tx][1..] == txs[1..];
    } else {
      assert txs[i := tx][1..] == txs[1..][i - 1 := tx];
      TotalAfterUpdate(txs[1..], i - 1, tx);
    }
  }

  lemma StepDecreases(w: World, s: State, i: nat)
    requires Inv(w, s) && CanStep(w, s, i)
    ensures TotalRemaining(Step(w, s, i).txs) < TotalRemaining(s.txs)
  {
    assert PhaseOk(w, s.posts, i, s.txs[i]);
    TotalAfterUpdate(s.txs, i, s.txs[i].(phase := NextPhase(w, s, i)));
    if s.txs[i].phase.Waiting? {
      BeginOk(w, s.posts, i, s.txs[i]);
    }
  }

  lemma {:induction false} TotalOfWaiting(txs: seq<Tx>)
    ensures TotalRemaining(txs) <= 5 * |txs|
  {
    if txs != [] {
      TotalOfWaiting(txs[1..]);
    }
  }

  lemma MoveDecreases(w: World, s: State, m: Move)
    requires Inv(w, s) && Enabled(w, s, m)
    ensures TotalRemaining(Make(w, s, m).txs) < TotalRemaining(s.txs)
  {
    if m.Go? {
      StepDecreases(w, s, m.tx);
    } else {
      TotalAfterUpdate(s.txs, m.tx, s.txs[m.tx].(phase := Finished(Aborted)));
    }
  }

  lemma {:induction false} RunIsBounded(w: World, s: State, schedule: seq<Move>)
    requires Inv(w, s) && Feasible(w, s, schedule)
    ensures |schedule| + TotalRemaining(Run(w, s, schedule).txs) <= TotalRemaining(s.txs)
    decreases |schedule|
  {
    if schedule != [] {
      MoveDecreases(w, s, schedule[0]);
      MoveKeepsInv(w, s, schedule[0]);
      RunIsBounded(w, Make(w, s, schedule[0]), schedule[1..]);
    }
  }

  ghost predicate AllFinished(s: State) {
    forall i | 0 <= i < |s.txs| :: s.txs[i].phase.Finished?
  }

  /**
   A write at its start waits for whoever holds the lock of its address, from that
   one's check to its end; a row is waited for while another write of it is staged.
   */
  predicate WaitsFor(w: World, p: Phase, q: Phase) {
    || (p.Ready? && p.write != None && (q.Locked? || q.Checked? || q.Staged?) && q.write != None
        && w.lockKey(q.write.value.addressNormalized) == w.lockKey(p.write.value.addressNormalized))
    || ((p.Checked? || (p.Ready? && p.write == None)) && q.Staged? && q.id == p.id)
  }

  /** Nothing else is waited for. */
  lemma BlockedExactly(w: World, s: State, i: nat)
    requires i < |s.txs| && !s.txs[i].phase.Finished?
    ensures !CanStep(w, s, i) <==> exists j :: 0 <= j < |s.txs| && WaitsFor(w, s.txs[i].phase, s.txs[j].phase)
  {
    var p := s.txs[i].phase;
    assert p.Ready? && p.write.Some? ==>
      (KeyBusy(w, s, p) <==> exists j :: 0 <= j < |s.txs| && WaitsFor(w, p, s.txs[j].phase));
    assert p.Checked? || (p.Ready? && p.write.None?) ==>
      (RowBusy(s, p.id) <==> exists j :: 0 <= j < |s.txs| && WaitsFor(w, p, s.txs[j].phase));
  }

  /**
   Some transaction can step as long as one is unfinished: whoever holds a row
   lock commits; with no row locked, whoever holds an advisory lock moves on;
   with no lock held, anyone may start or lock.
   */
  lemma NeverStuck(w: World, s: State) returns (i: nat)
    requires Inv(w, s) && !AllFinished(s)
    ensures CanStep(w, s, i)
  {
    i :| i < |s.txs| && !s.txs[i].phase.Finished?;
    if j: nat :| j < |s.txs| && s.txs[j].phase.Staged? {
      i := j;
    } else if j: nat :| j < |s.txs| && HoldsKey(s.txs[j].phase) {
      i := j;
    } else {
      assert PhaseOk(w, s.posts, i, s.txs[i]);
    }
  }

  /** From any state the transactions can run to their ends, none of them rolled back. */
  lemma {:induction false} EveryRunCanFinish(w: World, s: State) returns (rest: seq<Move>)
    requires Inv(w, s)
    ensures Feasible(w, s, rest) && AllFinished(Run(w, s, rest)) && forall m: Move | m in rest :: m.Go?
    decreases TotalRemaining(s.txs)
  {
    rest := [];
    if !AllFinished(s) {
      var i := NeverStuck(w, s);
      StepDecreases(w, s, i);
      StepKeepsInv(w, s, i);
      var later := EveryRunCanFinish(w, Step(w, s, i));
      rest := [Go(i)] + later;
      assert rest[1..] == later;
    }
  }

  /**
   No deadlock, and no endless run: every feasible schedule has at most five
   moves per transaction, and any state it reaches can be run on, without
   rolling anything back, until every transaction has finished.
   */
  lemma NoDeadlockAndBounded(w: World, s: State, schedule: seq<Move>)
    requires Initial(w, s) && Feasible(w, s, schedule)
    ensures |schedule| <= 5 * |s.txs|
    ensures var t := Run(w, s, schedule); AllFinished(t) || exists i :: CanStep(w, t, i)
    ensures exists rest :: Feasible(w, Run(w, s, schedule), rest) && (forall m: Move | m in rest :: m.Go?)
                           && AllFinished(Run(w, Run(w, s, schedule), rest))
  {
    RunIsBounded(w, s, schedule);
    TotalOfWaiting(s.txs);
    InvHoldsAlongRuns(w, s, schedule);
    var t := Run(w, s, schedule);
    var rest := EveryRunCanFinish(w, t);
    if !AllFinished(t) {
      var i := NeverStuck(w, t);
    }
  }

  // --------------------------------------------------------- exactly one wins

  /** `rivals` are creates at the normalized address `a` with verifiable images, any two sharing a fingerprint. */
  ghost predicate Rivalry(w: World, s: State, rivals: set<nat>, a: string) {
    && (forall i | i in rivals :: i < |s.txs| && IsRival(w, s.txs[i].request, a))
    && (forall i, j | i in rivals && j in rivals && i != j ::
          Overlap(Fingerprints(w.images, s.txs[i].request.images), Fingerprints(w.images, s.txs[j].request.images)))
  }

  predicate IsRival(w: World, r: Request, a: string) {
    && r.Create? && w.normalize(r.address) == a
    && FingerprintImages(w.images, r.images).Some?
  }

  /** The fingerprints overlap no rival's. */
  ghost predicate Apart(w: World, txs: seq<Tx>, rivals: set<nat>, hashes: seq<Hash>) {
    forall i | i in rivals && i < |txs| && txs[i].request.Create? ::
      !Overlap(hashes, Fingerprints(w.images, txs[i].request.images))
  }

  /** A pending write of another transaction: not to a rival's post, and apart from the rivals if at `a`. */
  ghost predicate QuietPhase(w: World, s: State, p: Phase, rivals: set<nat>, a: string) {
    p.Waiting? || p.Finished? ||
    (&& (p.id.CreatedBy? ==> p.id.tx !in rivals)
     && (p.write.Some? && p.write.value.addressNormalized == a ==> Apart(w, s.txs, rivals, p.write.value.imageHashes)))
  }

  ghost predicate BystandersQuiet(w: World, s: State, rivals: set<nat>, a: string) {
    forall i | 0 <= i < |s.txs| && i !in rivals :: QuietPhase(w, s, s.txs[i].phase, rivals, a)
  }

  /** All along a run, whatever else is about to be written at `a` overlaps no rival. */
  ghost predicate QuietAlong(w: World, s: State, schedule: seq<Move>, rivals: set<nat>, a: string)
    requires Feasible(w, s, schedule)
    decreases |schedule|
  {
    BystandersQuiet(w, s, rivals, a) &&
    (schedule == [] || QuietAlong(w, Make(w, s, schedule[0]), schedule[1..], rivals, a))
  }

  /** A request of which this can be told beforehand: it names another address, or images apart from the rivals'. */
  ghost predicate QuietRequest(w: World, txs: seq<Tx>, r: Request, rivals: set<nat>, a: string) {
    match r
    case Create(_, address, images) =>
      w.normalize(address) != a || Apart(w, txs, rivals, Fingerprints(w.images, images))
    case Edit(_, id, newAddress, newImages) =>
      && (id.CreatedBy? ==> id.tx !in rivals)
      && ((newAddress.Some? && w.normalize(newAddress.value) != a) ||
          (newImages.Some? && Apart(w, txs, rivals, Fingerprints(w.images, newImages.value))))
    case RemoveOwn(_, id) => id.CreatedBy? ==> id.tx !in rivals
    case RemoveByAdmin(id) => id.CreatedBy? ==> id.tx !in rivals
  }

  ghost predicate QuietRequests(w: World, s: State, rivals: set<nat>, a: string) {
    forall i | 0 <= i < |s.txs| && i !in rivals :: QuietRequest(w, s.txs, s.txs[i].request, rivals, a)
  }

  /** Moves change no request. */
  lemma RequestsStay(w: World, s: State, m: Move)
    requires Enabled(w, s, m)
    ensures var t := Make(w, s, m);
            |t.txs| == |s.txs| && forall i | 0 <= i < |s.txs| :: t.txs[i].request == s.txs[i].request
  {
  }

  lemma QuietRequestsAreQuiet(w: World, s: State, rivals: set<nat>, a: string)
    requires Inv(w, s) && QuietRequests(w, s, rivals, a)
    ensures BystandersQuiet(w, s, rivals, a)
  {
    forall i | 0 <= i < |s.txs| && i !in rivals ensures QuietPhase(w, s, s.txs[i].phase, rivals, a) {
      assert PhaseOk(w, s.posts, i, s.txs[i]) && QuietRequest(w, s.txs, s.txs[i].request, rivals, a);
    }
  }

  /** If every other request is quiet, every schedule is. */
  lemma {:induction false} QuietRequestsStayQuiet(w: World, s: State, schedule: seq<Move>, rivals: set<nat>, a: string)
    requires Inv(w, s) && Feasible(w, s, schedule) && QuietRequests(w, s, rivals, a)
    ensures QuietAlong(w, s, schedule, rivals, a)
    decreases |schedule|
  {
    QuietRequestsAreQuiet(w, s, rivals, a);
    if schedule != [] {
      var t := Make(w, s, schedule[0]);
      MoveKeepsInv(w, s, schedule[0]);
      RequestsStay(w, s, schedule[0]);
      forall i | 0 <= i < |t.txs| && i !in rivals ensures QuietRequest(w, t.txs, t.txs[i].request, rivals, a) {
        assert QuietRequest(w, s.txs, s.txs[i].request, rivals, a);
      }
      QuietRequestsStayQuiet(w, t, schedule[1..], rivals, a);
    }
  }

  /** No committed post outside the rivals clashes with a rival. */
  ghost predicate NoOutsideClash(w: World, s: State, rivals: set<nat>, a: string) {
    forall i, id | i in rivals && i < |s.txs| && s.txs[i].request.Create? && id in s.posts
                   && Clashes(s.posts[id], a, Fingerprints(w.images, s.txs[i].request.images)) ::
      id.CreatedBy? && id.tx in rivals
  }

  /** What the rivals' transactions carry. */
  ghost predicate RivalPhases(w: World, s: State, rivals: set<nat>, a: string) {
    forall i | i in rivals && i < |s.txs| :: RivalPhase(w, s.posts, i, s.txs[i], a)
  }

  ghost predicate RivalPhase(w: World, posts: Table, i: nat, tx: Tx, a: string) {
    var p := tx.phase;
    && tx.request.Create?
    && (p.Waiting? || p.Finished? ||
        (&& p.id == CreatedBy(i) && p.write.Some? && p.write.value.addressNormalized == a
         && p.write.value.imageHashes == Fingerprints(w.images, tx.request.images)))
    && (p.Finished? ==> p.outcome.Committed? || p.outcome.Duplicate? || p.outcome.Aborted?)
    && (p == Finished(Committed) ==> CreatedBy(i) in posts && RivalPost(w, posts[CreatedBy(i)], tx.request, a))
  }

  predicate RivalPost(w: World, post: Post, r: Request, a: string)
    requires r.Create?
  {
    && post.status.Published? && post.addressNormalized == Some(a)
    && post.imageHashes == Fingerprints(w.images, r.images)
  }

  /** A rival turned away as a duplicate met a rival that committed. */
  ghost predicate LosersHaveWinner(s: State, rivals: set<nat>) {
    forall i | i in rivals && i < |s.txs| && s.txs[i].phase == Finished(Duplicate) :: SomeCommitted(s, rivals)
  }

  predicate SomeCommitted(s: State, rivals: set<nat>) {
    exists j | j in rivals :: j < |s.txs| && s.txs[j].phase == Finished(Committed)
  }

  ghost predicate RaceInv(w: World, s: State, rivals: set<nat>, a: string) {
    && Inv(w, s) && Rivalry(w, s, rivals, a) && NoOutsideClash(w, s, rivals, a)
    && RivalPhases(w, s, rivals, a) && LosersHaveWinner(s, rivals)
  }

  lemma StepKeepsRivalPhases(w: World, s: State, i: nat, rivals: set<nat>, a: string)
    requires RaceInv(w, s, rivals, a) && BystandersQuiet(w, s, rivals, a) && CanStep(w, s, i)
    ensures RivalPhases(w, Step(w, s, i), rivals, a)
  {
    var t := Step(w, s, i);
    assert PhaseOk(w, s.posts, i, s.txs[i]);
    forall j | j in rivals && j < |t.txs| ensures RivalPhase(w, t.posts, j, t.txs[j], a) {
      assert RivalPhase(w, s.posts, j, s.txs[j], a) && IsRival(w, s.txs[j].request, a);
      assert i !in rivals ==> QuietPhase(w, s, s.txs[i].phase, rivals, a);
      assert i in rivals ==> RivalPhase(w, s.posts, i, s.txs[i], a);
    }
  }

  lemma StepKeepsOutsideClash(w: World, s: State, i: nat, rivals: set<nat>, a: string)
    requires RaceInv(w, s, rivals, a) && BystandersQuiet(w, s, rivals, a) && CanStep(w, s, i)
    ensures NoOutsideClash(w, Step(w, s, i), rivals, a)
  {
    assert i in rivals ==> RivalPhase(w, s.posts, i, s.txs[i], a);
    assert i !in rivals ==> QuietPhase(w, s, s.txs[i].phase, rivals, a);
  }

  lemma CommittedStays(s: State, t: State, rivals: set<nat>)
    requires SomeCommitted(s, rivals) && |t.txs| == |s.txs|
    requires forall j | 0 <= j < |s.txs| && s.txs[j].phase.Finished? :: t.txs[j].phase == s.txs[j].phase
    ensures SomeCommitted(t, rivals)
  {
    var j :| j in rivals && j < |s.txs| && s.txs[j].phase == Finished(Committed);
    assert t.txs[j].phase == Finished(Committed);
  }

  /** A rival that finds a duplicate has found another rival's committed post. */
  lemma DuplicateIsRival(w: World, s: State, i: nat, rivals: set<nat>, a: string)
    requires RaceInv(w, s, rivals, a) && i in rivals && i < |s.txs| && s.txs[i].phase.Locked?
    requires s.txs[i].phase.write.Some? && FindsDuplicate(s.posts, s.txs[i].phase.id, s.txs[i].phase.write.value)
    ensures SomeCommitted(s, rivals)
  {
    var p := s.txs[i].phase;
    assert RivalPhase(w, s.posts, i, s.txs[i], a);
    var id :| id in s.posts && id != p.id
      && Clashes(s.posts[id], p.write.value.addressNormalized, p.write.value.imageHashes);
    assert id.tx in rivals;
    assert PhaseOk(w, s.posts, id.tx, s.txs[id.tx]);
  }

  lemma StepKeepsWinner(w: World, s: State, i: nat, rivals: set<nat>, a: string)
    requires RaceInv(w, s, rivals, a) && CanStep(w, s, i)
    ensures LosersHaveWinner(Step(w, s, i), rivals)
  {
    var t := Step(w, s, i);
    forall k | k in rivals && k < |t.txs| && t.txs[k].phase == Finished(Duplicate) ensures SomeCommitted(t, rivals) {
      if s.txs[k].phase != Finished(Duplicate) {
        assert RivalPhase(w, s.posts, k, s.txs[k], a) && IsRival(w, s.txs[k].request, a);
        DuplicateIsRival(w, s, i, rivals, a);
      }
      CommittedStays(s, t, rivals);
    }
  }

  lemma AbortKeepsRace(w: World, s: State, i: nat, rivals: set<nat>, a: string)
    requires RaceInv(w, s, rivals, a) && Enabled(w, s, Abort(i))
    ensures RaceInv(w, Make(w, s, Abort(i)), rivals, a)
  {
    var t := Make(w, s, Abort(i));
    MoveKeepsInv(w, s, Abort(i));
    forall j | j in rivals && j < |t.txs| ensures RivalPhase(w, t.posts, j, t.txs[j], a) {
      assert RivalPhase(w, s.posts, j, s.txs[j], a);
    }
    forall k | k in rivals && k < |t.txs| && t.txs[k].phase == Finished(Duplicate) ensures SomeCommitted(t, rivals) {
      assert s.txs[k].phase == Finished(Duplicate);
      CommittedStays(s, t, rivals);
    }
  }

  lemma MoveKeepsRace(w: World, s: State, m: Move, rivals: set<nat>, a: string)
    requires RaceInv(w, s, rivals, a) && BystandersQuiet(w, s, rivals, a) && Enabled(w, s, m)
    ensures RaceInv(w, Make(w, s, m), rivals, a)
  {
    if m.Go? {
      StepKeepsInv(w, s, m.tx);
      StepKeepsRivalPhases(w, s, m.tx, rivals, a);
      StepKeepsOutsideClash(w, s, m.tx, rivals, a);
      StepKeepsWinner(w, s, m.tx, rivals, a);
    } else {
      AbortKeepsRace(w, s, m.tx, rivals, a);
    }
  }

  lemma {:induction false} RaceInvHoldsAlongRuns(w: World, s: State, schedule: seq<Move>, rivals: set<nat>, a: string)
    requires RaceInv(w, s, rivals, a) && Feasible(w, s, schedule) && QuietAlong(w, s, schedule, rivals, a)
    ensures RaceInv(w, Run(w, s, schedule), rivals, a)
    decreases |schedule|
  {
    if schedule != [] {
      MoveKeepsRace(w, s, schedule[0], rivals, a);
      RaceInvHoldsAlongRuns(w, Make(w, s, schedule[0]), schedule[1..], rivals, a);
    }
  }

  ghost predicate Wins(t: State, rivals: set<nat>, winner: nat) {
    && winner in rivals && winner < |t.txs| && t.txs[winner].phase == Finished(Committed)
    && forall i | i in rivals && i < |t.txs| && i != winner ::
         t.txs[i].phase == Finished(Duplicate) || t.txs[i].phase == Finished(Aborted)
  }

  lemma NoTwoRivalsCommit(w: World, t: State, rivals: set<nat>, a: string, i: nat, j: nat)
    requires RaceInv(w, t, rivals, a) && i in rivals && j in rivals && i != j
    ensures !(t.txs[i].phase == Finished(Committed) && t.txs[j].phase == Finished(Committed))
  {
    assert RivalPhase(w, t.posts, i, t.txs[i], a) && RivalPhase(w, t.posts, j, t.txs[j], a);
    if t.txs[i].phase == Finished(Committed) && t.txs[j].phase == Finished(Committed) {
      OverlapSymmetric(t.posts[CreatedBy(i)].imageHashes, t.posts[CreatedBy(j)].imageHashes);
      assert DuplicatePair(t.posts[CreatedBy(i)], t.posts[CreatedBy(j)]);
    }
  }

  lemma SomeRivalCommitted(w: World, t: State, rivals: set<nat>, a: string)
    requires RaceInv(w, t, rivals, a) && forall i | i in rivals && i < |t.txs| :: t.txs[i].phase.Finished?
    requires exists i :: i in rivals && i < |t.txs| && t.txs[i].phase != Finished(Aborted)
    ensures SomeCommitted(t, rivals)
  {
    var some :| some in rivals && some < |t.txs| && t.txs[some].phase != Finished(Aborted);
    assert RivalPhase(w, t.posts, some, t.txs[some], a);
  }

  lemma FinishedRaceHasWinner(w: World, t: State, rivals: set<nat>, a: string)
    requires RaceInv(w, t, rivals, a) && forall i | i in rivals && i < |t.txs| :: t.txs[i].phase.Finished?
    requires exists i :: i in rivals && i < |t.txs| && t.txs[i].phase != Finished(Aborted)
    ensures exists winner :: Wins(t, rivals, winner)
  {
    SomeRivalCommitted(w, t, rivals, a);
    var winner :| winner in rivals && winner < |t.txs| && t.txs[winner].phase == Finished(Committed);
    forall i | i in rivals && i < |t.txs| && i != winner
      ensures t.txs[i].phase == Finished(Duplicate) || t.txs[i].phase == Finished(Aborted)
    {
      OtherRivalLoses(w, t, rivals, a, i, winner);
    }
    assert Wins(t, rivals, winner);
  }

  lemma OtherRivalLoses(w: World, t: State, rivals: set<nat>, a: string, i: nat, winner: nat)
    requires RaceInv(w, t, rivals, a) && i in rivals && winner in rivals && i != winner
    requires i < |t.txs| && t.txs[i].phase.Finished? && winner < |t.txs| && t.txs[winner].phase == Finished(Committed)
    ensures t.txs[i].phase == Finished(Duplicate) || t.txs[i].phase == Finished(Aborted)
  {
    assert RivalPhase(w, t.posts, i, t.txs[i], a);
    NoTwoRivalsCommit(w, t, rivals, a, i, winner);
  }

  /**
   Of any number of concurrent creates at one address whose images pairwise
   overlap, with no prior clash, nobody removing or editing their posts and
   nobody else writing at the address with images that overlap theirs, exactly
   one commits and every other one is refused as a duplicate or rolled back,
   whatever the schedule; unless all of them are rolled back.
   */
  lemma ExactlyOneRivalCommits(w: World, s: State, schedule: seq<Move>, rivals: set<nat>, a: string)
    requires Initial(w, s) && Feasible(w, s, schedule) && QuietAlong(w, s, schedule, rivals, a)
    requires rivals != {} && Rivalry(w, s, rivals, a) && NoOutsideClash(w, s, rivals, a)
    requires forall i | i in rivals && i < |s.txs| :: Run(w, s, schedule).txs[i].phase.Finished?
    ensures var t := Run(w, s, schedule);
            || (exists winner :: Wins(t, rivals, winner))
            || forall i | i in rivals && i < |t.txs| :: t.txs[i].phase == Finished(Aborted)
  {
    RaceInvHoldsAlongRuns(w, s, schedule, rivals, a);
    var t := Run(w, s, schedule);
    if i :| i in rivals && i < |t.txs| && t.txs[i].phase != Finished(Aborted) {
      FinishedRaceHasWinner(w, t, rivals, a);
    }
  }
}

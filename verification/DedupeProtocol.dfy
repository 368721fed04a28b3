/**
 Reporter posts: the create, edit and remove transactions as a concurrent
 protocol. A transaction reads what it needs (possibly stale by the time it
 writes), takes the advisory lock on its normalized address, checks for a
 duplicate among the committed PUBLISHED posts, stages its write (which takes
 the row lock) and commits. Steps of any number of transactions interleave, and
 any of them may be rolled back before it commits.
 */
module DedupeProtocol {
  import opened Prelude
  import opened HashReuse

  /** `normalize` and `lockKey` are arbitrary: two addresses may share a lock key. */
  datatype World = World(images: ImageWorld, normalize: string -> string, lockKey: string -> int)

  /** Rows that were there from the start, and rows inserted by transaction `tx` under a fresh id. */
  datatype PostId = Stored(n: nat) | CreatedBy(tx: nat)

  datatype Status = Published | Removed

  datatype Post = Post(
    seller: nat,
    images: seq<Url>,
    address: Option<string>,
    addressNormalized: Option<string>,
    imageHashes: seq<Hash>,
    status: Status)

  type Table = map<PostId, Post>

  datatype Request =
    | Create(seller: nat, address: string, images: seq<Url>)
    | Edit(seller: nat, id: PostId, newAddress: Option<string>, newImages: Option<seq<Url>>)
    | RemoveOwn(seller: nat, id: PostId)
    | RemoveByAdmin(id: PostId)

  /** The columns a create or an edit writes; an edit leaves seller and status alone. */
  datatype Write = Write(seller: nat, images: seq<Url>, address: string,
                         addressNormalized: string, imageHashes: seq<Hash>)

  datatype Outcome = Committed | Duplicate | NotFound | AddressRequired | Unverifiable | AlreadyRemoved | Aborted

  /** `write.None?` is a removal, which takes no advisory lock. */
  datatype Phase =
    | Waiting
    | Ready(id: PostId, write: Option<Write>)
    | Locked(id: PostId, write: Option<Write>)
    | Checked(id: PostId, write: Option<Write>)
    | Staged(id: PostId, write: Option<Write>)
    | Finished(outcome: Outcome)

  datatype Tx = Tx(request: Request, phase: Phase)

  datatype State = State(posts: Table, txs: seq<Tx>)

  // ---------------------------------------------------------------- duplicates

  predicate Overlap(a: seq<Hash>, b: seq<Hash>) {
    exists h | h in a :: h in b
  }

  predicate Clashes(p: Post, addressNormalized: string, hashes: seq<Hash>) {
    p.status.Published? && p.addressNormalized == Some(addressNormalized) && Overlap(p.imageHashes, hashes)
  }

  /** Two posts that the duplicate rule forbids to be published together. */
  predicate DuplicatePair(p: Post, q: Post) {
    p.addressNormalized.Some? && p.status.Published? && Clashes(q, p.addressNormalized.value, p.imageHashes)
  }

  ghost predicate NoDuplicates(posts: Table) {
    forall a, b | a in posts && b in posts && a != b :: !DuplicatePair(posts[a], posts[b])
  }

  /** What the duplicate check finds: a clashing committed post other than the one being edited. */
  ghost predicate FindsDuplicate(posts: Table, self: PostId, w: Write) {
    exists id :: id in posts && id != self && Clashes(posts[id], w.addressNormalized, w.imageHashes)
  }

  // -------------------------------------------------------------- transactions

  /** The handler up to its transaction: the pre-read, the guards and the fingerprints. */
  function Begin(w: World, posts: Table, i: nat, request: Request): Phase {
    match request
    case Create(seller, address, images) =>
      var hashes := FingerprintImages(w.images, images);
      if hashes.None? then Finished(Unverifiable)
      else Ready(CreatedBy(i), Some(Write(seller, images, address, w.normalize(address), hashes.value)))
    case Edit(seller, id, newAddress, newImages) =>
      if id !in posts || posts[id].seller != seller then Finished(NotFound)
      else
        var existing := posts[id];
        var address := if newAddress.Some? then newAddress else existing.address;
        if address.None? || address.value == "" then Finished(AddressRequired)
        else
          var images := newImages.GetOr(existing.images);
          var hashes := SavedHashes(w.images, existing.images, existing.imageHashes, images);
          if hashes.None? then Finished(Unverifiable)
          else Ready(id, Some(Write(seller, images, address.value, w.normalize(address.value), hashes.value)))
    case RemoveOwn(seller, id) =>
      if id !in posts || posts[id].seller != seller then Finished(NotFound) else Ready(id, None)
    case RemoveByAdmin(id) =>
      if id !in posts then Finished(NotFound)
      else if posts[id].status.Removed? then Finished(AlreadyRemoved)
      else Ready(id, None)
  }

  /** The table after a committed write; an update touches only its own columns of the current row. */
  function Apply(posts: Table, id: PostId, write: Option<Write>): Table {
    if id in posts then
      posts[id := if write.None? then posts[id].(status := Removed)
                  else posts[id].(images := write.value.images,
                                  address := Some(write.value.address),
                                  addressNormalized := Some(write.value.addressNormalized),
                                  imageHashes := write.value.imageHashes)]
    else if write.Some? then
      posts[id := Post(write.value.seller, write.value.images, Some(write.value.address),
                       Some(write.value.addressNormalized), write.value.imageHashes, Published)]
    else posts
  }

  predicate HoldsKey(p: Phase) {
    (p.Locked? || p.Checked? || p.Staged?) && p.write.Some?
  }

  function Key(w: World, p: Phase): int
    requires !p.Waiting? && !p.Finished? && p.write.Some?
  {
    w.lockKey(p.write.value.addressNormalized)
  }

  /** Some other transaction holds the advisory lock that `p` wants. */
  predicate KeyBusy(w: World, s: State, p: Phase)
    requires !p.Waiting? && !p.Finished? && p.write.Some?
  {
    exists j | 0 <= j < |s.txs| :: HoldsKey(s.txs[j].phase) && Key(w, s.txs[j].phase) == Key(w, p)
  }

  /** Some other transaction holds the row lock of `id`. */
  predicate RowBusy(s: State, id: PostId) {
    exists j | 0 <= j < |s.txs| :: s.txs[j].phase.Staged? && s.txs[j].phase.id == id
  }

  /** Transaction `i` has a step to take and is not blocked. */
  predicate CanStep(w: World, s: State, i: nat) {
    i < |s.txs| &&
    var p := s.txs[i].phase;
    match p
    case Waiting => true
    case Ready(id, write) => if write.Some? then !KeyBusy(w, s, p) else !RowBusy(s, id)
    case Locked(_, _) => true
    case Checked(id, _) => !RowBusy(s, id)
    case Staged(_, _) => true
    case Finished(_) => false
  }

  /** The phase transaction `i` reaches by its next step. */
  ghost function NextPhase(w: World, s: State, i: nat): Phase
    requires CanStep(w, s, i)
  {
    match s.txs[i].phase
    case Waiting => Begin(w, s.posts, i, s.txs[i].request)
    case Ready(id, write) => if write.Some? then Locked(id, write) else Staged(id, write)
    case Locked(id, write) =>
      if write.Some? && FindsDuplicate(s.posts, id, write.value) then Finished(Duplicate) else Checked(id, write)
    case Checked(id, write) => Staged(id, write)
    case Staged(_, _) => Finished(Committed)
  }

  ghost function Step(w: World, s: State, i: nat): State
    requires CanStep(w, s, i)
  {
    var p := s.txs[i].phase;
    State(
      if p.Staged? then Apply(s.posts, p.id, p.write) else s.posts,
      s.txs[i := s.txs[i].(phase := NextPhase(w, s, i))])
  }

  /** A transaction takes its next step, or is rolled back: by a timeout, say, while it waits for a lock. */
  datatype Move = Go(tx: nat) | Abort(tx: nat)

  predicate Enabled(w: World, s: State, m: Move) {
    match m
    case Go(i) => CanStep(w, s, i)
    case Abort(i) => i < |s.txs| && !s.txs[i].phase.Finished?
  }

  /** Nothing that is rolled back has touched the committed posts. */
  ghost function Make(w: World, s: State, m: Move): State
    requires Enabled(w, s, m)
  {
    match m
    case Go(i) => Step(w, s, i)
    case Abort(i) => State(s.posts, s.txs[i := s.txs[i].(phase := Finished(Aborted))])
  }

  /** A schedule lists the moves in order. */
  ghost predicate Feasible(w: World, s: State, schedule: seq<Move>)
    decreases |schedule|
  {
    schedule == [] || (Enabled(w, s, schedule[0]) && Feasible(w, Make(w, s, schedule[0]), schedule[1..]))
  }

  ghost function Run(w: World, s: State, schedule: seq<Move>): (t: State)
    requires Feasible(w, s, schedule)
    ensures |t.txs| == |s.txs|
    decreases |schedule|
  {
    if schedule == [] then s else Run(w, Make(w, s, schedule[0]), schedule[1..])
  }

  /** Nothing has started; the stored posts hold no duplicates and their fingerprints are right. */
  ghost predicate Initial(w: World, s: State) {
    && (forall i | 0 <= i < |s.txs| :: s.txs[i].phase.Waiting?)
    && (forall id | id in s.posts :: id.Stored?)
    && NoDuplicates(s.posts)
    && RowsConsistent(w, s.posts)
  }

  // ---------------------------------------------------------------- invariants

  /** Stored fingerprints and the stored normalized address (where there is one) are right. */
  ghost predicate RowsConsistent(w: World, posts: Table) {
    forall id | id in posts :: RowConsistent(w, posts[id])
  }

  ghost predicate RowConsistent(w: World, p: Post) {
    && Consistent(w.images, p.images, p.imageHashes)
    && (p.addressNormalized.Some? ==> p.address.Some? && p.addressNormalized.value == w.normalize(p.address.value))
  }

  /** A write carries one fingerprint per image, its own normalized address, and what was asked for. */
  ghost predicate WriteOk(w: World, wr: Write, r: Request) {
    && wr.imageHashes == Fingerprints(w.images, wr.images)
    && wr.addressNormalized == w.normalize(wr.address)
    && match r
       case Create(seller, address, images) => wr.seller == seller && wr.address == address && wr.images == images
       case Edit(_, _, newAddress, newImages) =>
         (newAddress.Some? ==> wr.address == newAddress.value) && (newImages.Some? ==> wr.images == newImages.value)
       case _ => false
  }

  /** Whoever edits or removes a post owns it, or is an admin. */
  predicate MayChange(r: Request, p: Post) {
    match r
    case Create(_, _, _) => false
    case Edit(seller, _, _, _) => p.seller == seller
    case RemoveOwn(seller, _) => p.seller == seller
    case RemoveByAdmin(_) => true
  }

  /** Pending writes are right and target a row the request may change, or their own fresh id. */
  ghost predicate PhasesOk(w: World, s: State) {
    forall i | 0 <= i < |s.txs| :: PhaseOk(w, s.posts, i, s.txs[i])
  }

  ghost predicate PhaseOk(w: World, posts: Table, i: nat, tx: Tx) {
    var p := tx.phase;
    && (p.Waiting? || p.Finished? ||
        (&& (p.id in posts || (tx.request.Create? && p.id == CreatedBy(i) && p.write.Some?))
         && p.id == (if tx.request.Create? then CreatedBy(i) else tx.request.id)
         && (p.id in posts ==> MayChange(tx.request, posts[p.id]))
         && (p.write.Some? ==> WriteOk(w, p.write.value, tx.request))
         && (p.write.None? ==> (p.Ready? || p.Staged?) && (tx.request.RemoveOwn? || tx.request.RemoveByAdmin?))))
    && (CreatedBy(i) in posts ==> tx.request.Create? && p == Finished(Committed))
  }

  ghost predicate KeysExclusive(w: World, s: State) {
    forall i, j | 0 <= i < |s.txs| && 0 <= j < |s.txs| && i != j ::
      HoldsKey(s.txs[i].phase) && HoldsKey(s.txs[j].phase) ==> Key(w, s.txs[i].phase) != Key(w, s.txs[j].phase)
  }

  ghost predicate RowsExclusive(s: State) {
    forall i, j | 0 <= i < |s.txs| && 0 <= j < |s.txs| && i != j ::
      s.txs[i].phase.Staged? && s.txs[j].phase.Staged? ==> s.txs[i].phase.id != s.txs[j].phase.id
  }

  /** A passed duplicate check stays true until the transaction commits. */
  ghost predicate ChecksHold(s: State) {
    forall i | 0 <= i < |s.txs| :: CheckHolds(s.posts, s.txs[i].phase)
  }

  ghost predicate CheckHolds(posts: Table, p: Phase) {
    (p.Checked? || p.Staged?) && p.write.Some? ==> !FindsDuplicate(posts, p.id, p.write.value)
  }

  ghost predicate Inv(w: World, s: State) {
    && NoDuplicates(s.posts)
    && RowsConsistent(w, s.posts)
    && PhasesOk(w, s)
    && KeysExclusive(w, s)
    && RowsExclusive(s)
    && ChecksHold(s)
  }

  lemma OverlapSymmetric(a: seq<Hash>, b: seq<Hash>)
    ensures Overlap(a, b) == Overlap(b, a)
  {
  }

  /** Committing a write whose check still holds creates no duplicate pair. */
  lemma ApplyKeepsNoDuplicates(posts: Table, id: PostId, write: Option<Write>)
    requires NoDuplicates(posts)
    requires write.Some? ==> !FindsDuplicate(posts, id, write.value)
    ensures NoDuplicates(Apply(posts, id, write))
  {
    var after := Apply(posts, id, write);
    forall a, b | a in after && b in after && a != b
      ensures !DuplicatePair(after[a], after[b])
    {
      if a != id && b != id {
        assert !DuplicatePair(posts[a], posts[b]);
      } else if write.Some? {
        var other := if a == id then b else a;
        assert !Clashes(posts[other], write.value.addressNormalized, write.value.imageHashes);
        OverlapSymmetric(after[a].imageHashes, after[b].imageHashes);
      }
    }
  }

  /** A commit at one address cannot invalidate a check made at another. */
  lemma ApplyKeepsCheck(posts: Table, id: PostId, write: Option<Write>, p: Phase)
    requires CheckHolds(posts, p)
    requires HoldsKey(p) && write.Some? ==> write.value.addressNormalized != p.write.value.addressNormalized
    ensures CheckHolds(Apply(posts, id, write), p)
  {
    var after := Apply(posts, id, write);
    if (p.Checked? || p.Staged?) && p.write.Some? {
      forall q | q in after && q != p.id
        ensures !Clashes(after[q], p.write.value.addressNormalized, p.write.value.imageHashes)
      {
        assert q in posts ==> !Clashes(posts[q], p.write.value.addressNormalized, p.write.value.imageHashes);
      }
    }
  }

  lemma BeginOk(w: World, posts: Table, i: nat, tx: Tx)
    requires tx.phase.Waiting? && PhaseOk(w, posts, i, tx) && RowsConsistent(w, posts)
    ensures PhaseOk(w, posts, i, tx.(phase := Begin(w, posts, i, tx.request)))
    ensures var p := Begin(w, posts, i, tx.request); p.Ready? || (p.Finished? && !p.outcome.Committed?)
  {
    if tx.request.Edit? && tx.request.id in posts {
      var existing := posts[tx.request.id];
      var images := tx.request.newImages.GetOr(existing.images);
      ReuseIsRefingerprint(w.images, existing.images, existing.imageHashes, images);
    }
  }

  lemma StepKeepsPhasesOk(w: World, s: State, i: nat)
    requires Inv(w, s) && CanStep(w, s, i)
    ensures PhasesOk(w, Step(w, s, i)) && RowsConsistent(w, Step(w, s, i).posts)
  {
    var t := Step(w, s, i);
    assert PhaseOk(w, s.posts, i, s.txs[i]);
    if s.txs[i].phase.Waiting? {
      BeginOk(w, s.posts, i, s.txs[i]);
    }
    forall j | 0 <= j < |t.txs| ensures PhaseOk(w, t.posts, j, t.txs[j]) {
      assert PhaseOk(w, s.posts, j, s.txs[j]);
    }
  }

  lemma StepKeepsLocks(w: World, s: State, i: nat)
    requires Inv(w, s) && CanStep(w, s, i)
    ensures KeysExclusive(w, Step(w, s, i)) && RowsExclusive(Step(w, s, i))
  {
    assert PhaseOk(w, s.posts, i, s.txs[i]);
    if s.txs[i].phase.Waiting? {
      BeginOk(w, s.posts, i, s.txs[i]);
    }
  }

  lemma StepKeepsChecks(w: World, s: State, i: nat)
    requires Inv(w, s) && CanStep(w, s, i)
    ensures ChecksHold(Step(w, s, i)) && NoDuplicates(Step(w, s, i).posts)
  {
    var t, p := Step(w, s, i), s.txs[i].phase;
    assert PhaseOk(w, s.posts, i, s.txs[i]) && CheckHolds(s.posts, p);
    if p.Waiting? {
      BeginOk(w, s.posts, i, s.txs[i]);
    }
    if p.Staged? {
      ApplyKeepsNoDuplicates(s.posts, p.id, p.write);
    }
    forall j | 0 <= j < |t.txs| ensures CheckHolds(t.posts, t.txs[j].phase) {
      assert CheckHolds(s.posts, s.txs[j].phase);
      if p.Staged? && j != i {
        ApplyKeepsCheck(s.posts, p.id, p.write, s.txs[j].phase);
      }
    }
  }

  lemma StepKeepsInv(w: World, s: State, i: nat)
    requires Inv(w, s) && CanStep(w, s, i)
    ensures Inv(w, Step(w, s, i))
  {
    StepKeepsPhasesOk(w, s, i);
    StepKeepsLocks(w, s, i);
    StepKeepsChecks(w, s, i);
  }

  lemma MoveKeepsInv(w: World, s: State, m: Move)
    requires Inv(w, s) && Enabled(w, s, m)
    ensures Inv(w, Make(w, s, m))
  {
    if m.Go? {
      StepKeepsInv(w, s, m.tx);
    } else {
      var t := Make(w, s, m);
      assert PhaseOk(w, s.posts, m.tx, s.txs[m.tx]);
      forall j | 0 <= j < |t.txs| ensures PhaseOk(w, t.posts, j, t.txs[j]) && CheckHolds(t.posts, t.txs[j].phase) {
        assert PhaseOk(w, s.posts, j, s.txs[j]) && CheckHolds(s.posts, s.txs[j].phase);
      }
    }
  }

  lemma {:induction false} InvHoldsAlongRuns(w: World, s: State, schedule: seq<Move>)
    requires Inv(w, s) && Feasible(w, s, schedule)
    ensures Inv(w, Run(w, s, schedule))
    decreases |schedule|
  {
    if schedule != [] {
      MoveKeepsInv(w, s, schedule[0]);
      InvHoldsAlongRuns(w, Make(w, s, schedule[0]), schedule[1..]);
    }
  }

  /**
   Safety over every interleaving: from posts without duplicates, no schedule of
   creates, edits and removals (stale pre-reads, moves between addresses, lock
   keys that collide, roll-backs at any point) ever publishes two posts with the same normalized address
   and a common image fingerprint; and every stored fingerprint stays the
   fingerprint of the image at its position.
   */
  lemma NoDuplicateIsEverPublished(w: World, s: State, schedule: seq<Move>)
    requires Initial(w, s) && Feasible(w, s, schedule)
    ensures NoDuplicates(Run(w, s, schedule).posts)
    ensures RowsConsistent(w, Run(w, s, schedule).posts)
  {
    InvHoldsAlongRuns(w, s, schedule);
  }

  /**
   A step that changes a stored post is a commit of a request that may change
   it: the owner's edit or removal, or an admin's removal. It never changes the
   owner, never publishes a removed post again, and an edit leaves exactly the
   images and address it asked for, with their fingerprints.
   */
  lemma PostsChangeOnlyAsAllowed(w: World, s: State, i: nat, id: PostId)
    requires Inv(w, s) && CanStep(w, s, i) && id in s.posts
    ensures id in Step(w, s, i).posts
    ensures var before, after, r := s.posts[id], Step(w, s, i).posts[id], s.txs[i].request;
            && after.seller == before.seller
            && (before.status.Removed? ==> after.status.Removed?)
            && (after != before ==>
                  && NextPhase(w, s, i) == Finished(Committed) && MayChange(r, before)
                  && (if r.Edit? then
                        && after.status == before.status
                        && after.imageHashes == Fingerprints(w.images, after.images)
                        && (r.newImages.Some? ==> after.images == r.newImages.value)
                        && (r.newAddress.Some? ==> after.address == r.newAddress)
                      else after == before.(status := Removed)))
  {
    assert PhaseOk(w, s.posts, i, s.txs[i]);
  }
}

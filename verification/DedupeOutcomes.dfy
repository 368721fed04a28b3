/**
 Reporter posts, continued: how every transaction ends, over every schedule, in
 terms of the rows it read, the rows at its check and the row it leaves.
 */
module DedupeOutcomes {
  import opened Prelude
  import opened HashReuse
  import opened DedupeProtocol

  // ------------------------------------------------------------ what a check finds

  /** Another published post has this normalized address and one of these image fingerprints. */
  ghost predicate TakenByOther(posts: Table, self: PostId, addressNormalized: string, hashes: seq<Hash>) {
    exists q, h :: q in posts && q != self && posts[q].status == Published
                   && posts[q].addressNormalized == Some(addressNormalized)
                   && h in posts[q].imageHashes && h in hashes
  }

  /** A check refuses exactly when another published post is in the way; a post is never in its own way. */
  lemma CheckRefusesExactly(w: World, s: State, i: nat)
    requires CanStep(w, s, i) && s.txs[i].phase.Locked? && s.txs[i].phase.write.Some?
    ensures var id, write := s.txs[i].phase.id, s.txs[i].phase.write.value;
            NextPhase(w, s, i) ==
            if TakenByOther(s.posts, id, write.addressNormalized, write.imageHashes) then Finished(Duplicate)
            else Checked(id, Some(write))
  {
    var id, write := s.txs[i].phase.id, s.txs[i].phase.write.value;
    if TakenByOther(s.posts, id, write.addressNormalized, write.imageHashes) {
      var q, h :| q in s.posts && q != id && s.posts[q].status == Published
        && s.posts[q].addressNormalized == Some(write.addressNormalized)
        && h in s.posts[q].imageHashes && h in write.imageHashes;
      assert Clashes(s.posts[q], write.addressNormalized, write.imageHashes);
    }
  }

  // --------------------------------------------------- the moves of one transaction

  /** The state before transaction i's next own step, and the moves from there on. */
  ghost function Until(w: World, s: State, schedule: seq<Move>, i: nat): (r: (State, seq<Move>))
    requires Feasible(w, s, schedule)
    ensures Feasible(w, r.0, r.1) && Run(w, r.0, r.1) == Run(w, s, schedule)
    ensures r.1 == [] || r.1[0] == Go(i)
    decreases |schedule|
  {
    if schedule == [] || schedule[0] == Go(i) then (s, schedule)
    else Until(w, Make(w, s, schedule[0]), schedule[1..], i)
  }

  /** The same before the n-th own step from here, counted from 0. */
  ghost function AtOwn(w: World, s: State, schedule: seq<Move>, i: nat, n: nat): (r: (State, seq<Move>))
    requires Feasible(w, s, schedule)
    ensures Feasible(w, r.0, r.1) && Run(w, r.0, r.1) == Run(w, s, schedule)
    ensures r.1 == [] || r.1[0] == Go(i)
    decreases n
  {
    var at := Until(w, s, schedule, i);
    if n == 0 || at.1 == [] then at else AtOwn(w, Make(w, at.0, Go(i)), at.1[1..], i, n - 1)
  }

  /** Transaction i is not finished here, is never rolled back, and finishes by the end. */
  ghost predicate Finishes(w: World, s: State, schedule: seq<Move>, i: nat)
    requires Feasible(w, s, schedule)
  {
    && Inv(w, s) && i < |s.txs| && !s.txs[i].phase.Finished? && Abort(i) !in schedule
    && Run(w, s, schedule).txs[i].phase.Finished?
  }

  lemma OthersLeaveTx(w: World, s: State, m: Move, i: nat)
    requires Enabled(w, s, m) && m.tx != i && i < |s.txs|
    ensures Make(w, s, m).txs[i] == s.txs[i]
  {
  }

  /** Such a transaction gets to its next own step with its phase and request as they are. */
  lemma {:induction false} ComesToStep(w: World, s: State, schedule: seq<Move>, i: nat)
    requires Feasible(w, s, schedule) && Finishes(w, s, schedule, i)
    ensures var at := Until(w, s, schedule, i);
            at.1 != [] && Finishes(w, at.0, at.1, i) && at.0.txs[i] == s.txs[i] && CanStep(w, at.0, i)
    decreases |schedule|
  {
    assert schedule != [];
    if schedule[0] != Go(i) {
      assert schedule[0] in schedule;
      OthersLeaveTx(w, s, schedule[0], i);
      MoveKeepsInv(w, s, schedule[0]);
      ComesToStep(w, Make(w, s, schedule[0]), schedule[1..], i);
    }
  }

  /** After it takes the step it is in its next phase, and finished or still to finish. */
  lemma TakesStep(w: World, s: State, schedule: seq<Move>, i: nat)
    requires Feasible(w, s, schedule) && Finishes(w, s, schedule, i) && schedule != [] && schedule[0] == Go(i)
    ensures var t := Make(w, s, Go(i));
            && Feasible(w, t, schedule[1..]) && Run(w, t, schedule[1..]) == Run(w, s, schedule)
            && t.txs[i] == s.txs[i].(phase := NextPhase(w, s, i))
            && (!NextPhase(w, s, i).Finished? ==> Finishes(w, t, schedule[1..], i))
  {
    MoveKeepsInv(w, s, Go(i));
    assert forall m | m in schedule[1..] :: m in schedule;
  }

  /** A finished transaction keeps its outcome. */
  lemma {:induction false} OutcomeStays(w: World, s: State, schedule: seq<Move>, i: nat)
    requires Feasible(w, s, schedule) && i < |s.txs| && s.txs[i].phase.Finished?
    ensures Run(w, s, schedule).txs[i] == s.txs[i]
    decreases |schedule|
  {
    if schedule != [] {
      OutcomeStays(w, Make(w, s, schedule[0]), schedule[1..], i);
    }
  }

  /** The phase after the n-th own step, and where the next one finds it. */
  lemma OwnStep(w: World, s: State, schedule: seq<Move>, i: nat) returns (t: State, rest: seq<Move>)
    requires Feasible(w, s, schedule) && Finishes(w, s, schedule, i)
    ensures var at := Until(w, s, schedule, i).0;
            && CanStep(w, at, i) && at.txs[i] == s.txs[i] && Inv(w, at)
            && t == Make(w, at, Go(i)) && Feasible(w, t, rest) && Run(w, t, rest) == Run(w, s, schedule)
            && t.txs[i] == s.txs[i].(phase := NextPhase(w, at, i))
            && (!NextPhase(w, at, i).Finished? ==> Finishes(w, t, rest, i))
            && (NextPhase(w, at, i).Finished? ==> Run(w, s, schedule).txs[i].phase == NextPhase(w, at, i))
            && (forall n: nat | n > 0 :: AtOwn(w, s, schedule, i, n) == AtOwn(w, t, rest, i, n - 1))
  {
    var at := Until(w, s, schedule, i);
    ComesToStep(w, s, schedule, i);
    TakesStep(w, at.0, at.1, i);
    t, rest := Make(w, at.0, Go(i)), at.1[1..];
    if t.txs[i].phase.Finished? {
      OutcomeStays(w, t, rest, i);
    }
  }

  // ------------------------------------------------------- from the lock to the end

  /** The row as a committed write leaves it. */
  predicate Carries(posts: Table, id: PostId, wr: Write) {
    id in posts && posts[id].images == wr.images && posts[id].address == Some(wr.address)
    && posts[id].addressNormalized == Some(wr.addressNormalized) && posts[id].imageHashes == wr.imageHashes
  }

  /** What a committed write of an edit leaves alone, or a create sets. */
  predicate KeepsRest(before: Table, after: Table, id: PostId, wr: Write) {
    id in after &&
    if id in before then after[id].seller == before[id].seller && after[id].status == before[id].status
    else after[id].seller == wr.seller && after[id].status == Published
  }

  /** No row but this one changes. */
  ghost predicate OthersSame(before: Table, after: Table, id: PostId) {
    forall q | q != id :: (q in after <==> q in before) && (q in before ==> after[q] == before[q])
  }

  lemma CommitWrites(w: World, s: State, i: nat)
    requires CanStep(w, s, i) && s.txs[i].phase.Staged? && s.txs[i].phase.write.Some?
    ensures var id, wr, t := s.txs[i].phase.id, s.txs[i].phase.write.value, Make(w, s, Go(i));
            Carries(t.posts, id, wr) && KeepsRest(s.posts, t.posts, id, wr) && OthersSame(s.posts, t.posts, id)
  {
  }

  /** Its commit, three own steps from Ready, leaves the row as written and every other row alone. */
  ghost predicate CommitsAt(w: World, at: State, i: nat, id: PostId, wr: Write) {
    CanStep(w, at, i) && at.txs[i].phase == Staged(id, Some(wr)) && (id in at.posts <==> !at.txs[i].request.Create?) &&
    var after := Make(w, at, Go(i)).posts;
    Carries(after, id, wr) && KeepsRest(at.posts, after, id, wr) && OthersSame(at.posts, after, id)
  }

  /** A write ends as a duplicate exactly when another published post is in the way at its check, else committed. */
  ghost predicate EndsAsChecked(w: World, outcome: Phase, check: State, commit: State, i: nat, id: PostId, wr: Write) {
    if TakenByOther(check.posts, id, wr.addressNormalized, wr.imageHashes) then outcome == Finished(Duplicate)
    else outcome == Finished(Committed) && CommitsAt(w, commit, i, id, wr)
  }

  /** From Ready on, a write ends as its check finds: refused as a duplicate, or committed. */
  lemma WriteEndsAsChecked(w: World, s: State, schedule: seq<Move>, i: nat, id: PostId, wr: Write)
    requires Feasible(w, s, schedule) && Finishes(w, s, schedule, i) && s.txs[i].phase == Ready(id, Some(wr))
    ensures var check, commit := AtOwn(w, s, schedule, i, 1).0, AtOwn(w, s, schedule, i, 3).0;
            EndsAsChecked(w, Run(w, s, schedule).txs[i].phase, check, commit, i, id, wr)
  {
    var t1, r1 := OwnStep(w, s, schedule, i);
    var check := Until(w, t1, r1, i).0;
    assert AtOwn(w, s, schedule, i, 1) == AtOwn(w, t1, r1, i, 0);
    var t2, r2 := OwnStep(w, t1, r1, i);
    CheckRefusesExactly(w, check, i);
    if !TakenByOther(check.posts, id, wr.addressNormalized, wr.imageHashes) {
      CheckedWriteCommits(w, t2, r2, i, id, wr);
      assert AtOwn(w, s, schedule, i, 3) == AtOwn(w, t1, r1, i, 2) == AtOwn(w, t2, r2, i, 1);
    }
  }

  lemma CheckedWriteCommits(w: World, s: State, schedule: seq<Move>, i: nat, id: PostId, wr: Write)
    requires Feasible(w, s, schedule) && Finishes(w, s, schedule, i) && s.txs[i].phase == Checked(id, Some(wr))
    ensures Run(w, s, schedule).txs[i].phase == Finished(Committed)
    ensures CommitsAt(w, AtOwn(w, s, schedule, i, 1).0, i, id, wr)
  {
    var t, rest := OwnStep(w, s, schedule, i);
    assert AtOwn(w, s, schedule, i, 1) == AtOwn(w, t, rest, i, 0);
    var u, more := OwnStep(w, t, rest, i);
    var at := Until(w, t, rest, i).0;
    assert PhaseOk(w, at.posts, i, at.txs[i]);
    CommitWrites(w, at, i);
  }

  // ------------------------------------------------------------ creates and edits

  /** An image that the host has but does not deliver cannot be fingerprinted. */
  predicate Fetched(w: World, u: Url) {
    w.images.hosted(u) ==> w.images.fetchable(u)
  }

  /** Position by position: the digest of the image, marked as hosted content or as a mere address. */
  ghost predicate HashesOf(w: World, images: seq<Url>, hashes: seq<Hash>) {
    |hashes| == |images| && forall k | 0 <= k < |images| ::
      hashes[k] == (if w.images.hosted(images[k]) then "sha256:" else "url:") + w.images.digest(images[k])
  }

  lemma FingerprintedExactly(w: World, images: seq<Url>)
    ensures FingerprintImages(w.images, images).Some? <==> forall u | u in images :: Fetched(w, u)
    ensures HashesOf(w, images, Fingerprints(w.images, images))
  {
    assert forall u :: Fetched(w, u) == Verifiable(w.images, u);
  }

  /** What a create asks for. */
  ghost predicate CreateAsks(w: World, r: Request, wr: Write) {
    r.Create? && wr.seller == r.seller && wr.images == r.images && wr.address == r.address
    && wr.addressNormalized == w.normalize(r.address) && HashesOf(w, r.images, wr.imageHashes)
  }

  lemma CreateBegins(w: World, s: State, i: nat)
    requires CanStep(w, s, i) && s.txs[i].phase.Waiting? && s.txs[i].request.Create?
    ensures var r, p := s.txs[i].request, NextPhase(w, s, i);
            if exists u :: u in r.images && !Fetched(w, u) then p == Finished(Unverifiable)
            else p.Ready? && p.id == CreatedBy(i) && p.write.Some? && CreateAsks(w, r, p.write.value)
  {
    FingerprintedExactly(w, s.txs[i].request.images);
  }

  /**
   How a create ends unless it is rolled back. It is unverifiable exactly when an
   image cannot be fetched; else a duplicate exactly when another published post
   is in the way at its check; else it commits a new published post with its
   images and address, and touches no other row.
   */
  lemma CreateEnds(w: World, s: State, schedule: seq<Move>, i: nat)
    requires Feasible(w, s, schedule) && Finishes(w, s, schedule, i)
    requires s.txs[i].phase.Waiting? && s.txs[i].request.Create?
    ensures var r, outcome := s.txs[i].request, Run(w, s, schedule).txs[i].phase;
            var check, commit := AtOwn(w, s, schedule, i, 2).0, AtOwn(w, s, schedule, i, 4).0;
            if exists u :: u in r.images && !Fetched(w, u) then outcome == Finished(Unverifiable)
            else
              exists wr :: CreateAsks(w, r, wr) && EndsAsChecked(w, outcome, check, commit, i, CreatedBy(i), wr)
  {
    var r, outcome := s.txs[i].request, Run(w, s, schedule).txs[i].phase;
    var t, rest := OwnStep(w, s, schedule, i);
    CreateBegins(w, Until(w, s, schedule, i).0, i);
    if t.txs[i].phase.Ready? {
      var wr := t.txs[i].phase.write.value;
      WriteEndsAsChecked(w, t, rest, i, CreatedBy(i), wr);
      assert AtOwn(w, s, schedule, i, 2) == AtOwn(w, t, rest, i, 1);
      assert AtOwn(w, s, schedule, i, 4) == AtOwn(w, t, rest, i, 3);
      var check, commit := AtOwn(w, s, schedule, i, 2).0, AtOwn(w, s, schedule, i, 4).0;
      assert CreateAsks(w, r, wr) && EndsAsChecked(w, outcome, check, commit, i, CreatedBy(i), wr);
    }
  }

  /** What an edit asks for, on the row it read: what it names, and the row's own where it names nothing. */
  ghost predicate EditAsks(w: World, row: Post, r: Request, wr: Write) {
    && r.Edit?
    && wr.images == (if r.newImages.Some? then r.newImages.value else row.images)
    && Some(wr.address) == (if r.newAddress.Some? then r.newAddress else row.address)
    && wr.addressNormalized == w.normalize(wr.address)
    && HashesOf(w, wr.images, wr.imageHashes)
  }

  /** An image for which the row it read holds no fingerprint, and which cannot be fetched. */
  ghost predicate CannotHash(w: World, row: Post, images: seq<Url>) {
    exists u :: u in images && !Fetched(w, u) &&
      forall k | 0 <= k < |row.images| && k < |row.imageHashes| && row.images[k] == u :: row.imageHashes[k] == ""
  }

  /**
   How an edit ends unless it is rolled back, by the row it read at its start:
   not found unless the row exists and is the caller's; refused without an
   address; unverifiable exactly when an image has no stored fingerprint and
   cannot be fetched; else a duplicate exactly when another published post, not
   the edited one, is in the way at its check; else committed, and the row then
   carries what was asked for.
   */
  lemma EditEnds(w: World, s: State, schedule: seq<Move>, i: nat)
    requires Feasible(w, s, schedule) && Finishes(w, s, schedule, i)
    requires s.txs[i].phase.Waiting? && s.txs[i].request.Edit?
    ensures var r, outcome := s.txs[i].request, Run(w, s, schedule).txs[i].phase;
            var read := AtOwn(w, s, schedule, i, 0).0.posts;
            var check, commit := AtOwn(w, s, schedule, i, 2).0, AtOwn(w, s, schedule, i, 4).0;
            if r.id !in read || read[r.id].seller != r.seller then outcome == Finished(NotFound)
            else
              var row := read[r.id];
              var address := if r.newAddress.Some? then r.newAddress else row.address;
              var images := if r.newImages.Some? then r.newImages.value else row.images;
              if address == None || address == Some("") then outcome == Finished(AddressRequired)
              else if CannotHash(w, row, images) then outcome == Finished(Unverifiable)
              else exists wr :: EditAsks(w, row, r, wr) && EndsAsChecked(w, outcome, check, commit, i, r.id, wr)
  {
    var r, at := s.txs[i].request, Until(w, s, schedule, i).0;
    var t, rest := OwnStep(w, s, schedule, i);
    if r.id in at.posts && at.posts[r.id].seller == r.seller {
      EditBegins(w, at, i);
      if t.txs[i].phase.Ready? {
        var wr := t.txs[i].phase.write.value;
        assert EditAsks(w, at.posts[r.id], r, wr);
        WriteEndsAsChecked(w, t, rest, i, r.id, wr);
        assert AtOwn(w, s, schedule, i, 2) == AtOwn(w, t, rest, i, 1);
        assert AtOwn(w, s, schedule, i, 4) == AtOwn(w, t, rest, i, 3);
        assert EditAsks(w, at.posts[r.id], r, wr) && EndsAsChecked(w, Run(w, s, schedule).txs[i].phase,
          AtOwn(w, s, schedule, i, 2).0, AtOwn(w, s, schedule, i, 4).0, i, r.id, wr);
      }
    }
  }

  /** The start of an edit on the caller's own row. */
  lemma EditBegins(w: World, s: State, i: nat)
    requires Inv(w, s) && CanStep(w, s, i) && s.txs[i].phase.Waiting? && s.txs[i].request.Edit?
    requires var r := s.txs[i].request; r.id in s.posts && s.posts[r.id].seller == r.seller
    ensures var r, p := s.txs[i].request, NextPhase(w, s, i);
            var row := s.posts[r.id];
            var address := if r.newAddress.Some? then r.newAddress else row.address;
            var images := if r.newImages.Some? then r.newImages.value else row.images;
            if address == None || address == Some("") then p == Finished(AddressRequired)
            else if CannotHash(w, row, images) then p == Finished(Unverifiable)
            else p.Ready? && p.id == r.id && p.write.Some? && EditAsks(w, row, r, p.write.value)
  {
    var r := s.txs[i].request;
    var row := s.posts[r.id];
    var images := if r.newImages.Some? then r.newImages.value else row.images;
    ReuseIsRefingerprint(w.images, row.images, row.imageHashes, images);
    FingerprintedExactly(w, images);
    NoHashExactly(w, row, images);
  }

  lemma NoHashExactly(w: World, row: Post, images: seq<Url>)
    ensures CannotHash(w, row, images) <==>
            exists u :: u in images && !Verifiable(w.images, u) && !HasStoredHash(row.images, row.imageHashes, u)
  {
    forall u ensures (forall k | 0 <= k < |row.images| && k < |row.imageHashes| && row.images[k] == u ::
                        row.imageHashes[k] == "") <==> !HasStoredHash(row.images, row.imageHashes, u) {
    }
    assert forall u :: Fetched(w, u) == Verifiable(w.images, u);
  }

  // --------------------------------------------------------------------- removals

  /** Its commit leaves the row REMOVED, otherwise as it was, and every other row alone. */
  ghost predicate RemovesAt(w: World, at: State, i: nat, id: PostId) {
    CanStep(w, at, i) && at.txs[i].phase == Staged(id, None) && id in at.posts &&
    var after := Make(w, at, Go(i)).posts;
    id in after && after[id] == at.posts[id].(status := Removed) && OthersSame(at.posts, after, id)
  }

  /**
   How a removal ends unless it is rolled back: the owner's is not found unless
   the row is the caller's; an admin's is refused when the row was read as
   removed; any other commits, and the row is then removed.
   */
  lemma RemovalEnds(w: World, s: State, schedule: seq<Move>, i: nat)
    requires Feasible(w, s, schedule) && Finishes(w, s, schedule, i) && s.txs[i].phase.Waiting?
    requires s.txs[i].request.RemoveOwn? || s.txs[i].request.RemoveByAdmin?
    ensures var r, outcome := s.txs[i].request, Run(w, s, schedule).txs[i].phase;
            var read, commit := AtOwn(w, s, schedule, i, 0).0.posts, AtOwn(w, s, schedule, i, 2).0;
            if r.id !in read || (r.RemoveOwn? && read[r.id].seller != r.seller) then outcome == Finished(NotFound)
            else if r.RemoveByAdmin? && read[r.id].status == Removed then outcome == Finished(AlreadyRemoved)
            else outcome == Finished(Committed) && RemovesAt(w, commit, i, r.id)
  {
    var r := s.txs[i].request;
    var t, rest := OwnStep(w, s, schedule, i);
    if t.txs[i].phase.Ready? {
      var u, more := OwnStep(w, t, rest, i);
      assert AtOwn(w, s, schedule, i, 2) == AtOwn(w, t, rest, i, 1) == AtOwn(w, u, more, i, 0);
      RemovalCommits(w, u, more, i);
    }
  }

  lemma RemovalCommits(w: World, s: State, schedule: seq<Move>, i: nat)
    requires Feasible(w, s, schedule) && Finishes(w, s, schedule, i)
    requires s.txs[i].phase.Staged? && s.txs[i].phase.write.None?
    ensures Run(w, s, schedule).txs[i].phase == Finished(Committed)
    ensures RemovesAt(w, AtOwn(w, s, schedule, i, 0).0, i, s.txs[i].phase.id)
  {
    var at := Until(w, s, schedule, i).0;
    var v, last := OwnStep(w, s, schedule, i);
    assert PhaseOk(w, at.posts, i, at.txs[i]);
  }
}

/**
 Owner properties: creation and edits by the owner, moderation by admins. An edit
 reads the row, works out everything it will write, and writes it later; a
 suspension reads the status before its unconditional write.
 */
module OwnerProperties {
  import opened Prelude

  datatype DocType = OwnershipDocument | OtherDocument(name: string)
  datatype Doc = Doc(kind: DocType, url: string)
  datatype DocError = OwnershipRequired | OnlyOneOwnership | OwnershipInvalid

  datatype PropertyClassification = Clear | Disputed
  datatype DisputeType = Civil | Criminal | OtherDispute
  datatype Classification = Classification(
    propertyStatus: Option<PropertyClassification>, disputeType: Option<DisputeType>)

  datatype Status = Draft | Pending | Approved | Rejected | Deleted | Suspended

  datatype Property = Property(
    seller: nat,
    latitude: Option<real>,
    longitude: Option<real>,
    classification: Classification,
    docs: seq<Doc>,
    health: int,
    status: Status)

  /** Fields of a create or update request that matter here; None is absent or null. */
  datatype Body = Body(
    title: string,
    area: string,
    latitude: Option<real>,
    longitude: Option<real>,
    classification: Classification,
    documents: Option<seq<Doc>>,
    ownershipUrl: Option<string>)

  datatype Result<T> = Success(value: T) | Failure(code: nat)

  // -------------------------------------------------------------- the documents

  function CalcHealth(docCount: nat): int {
    if 30 + docCount * 8 < 95 then 30 + docCount * 8 else 95
  }

  /** Starts with https:// in any case. */
  predicate IsHttps(url: string) {
    |url| >= 8 && forall i | 0 <= i < 8 :: LowerAscii(url[i]) == "https://"[i]
  }

  /** The eight characters, the letters in either case. */
  lemma HttpsExactly(url: string)
    ensures IsHttps(url) <==>
              && |url| >= 8 && url[0] in "hH" && url[1] in "tT" && url[2] in "tT" && url[3] in "pP" && url[4] in "sS"
              && url[5] == ':' && url[6] == '/' && url[7] == '/'
  {
    if |url| >= 8 {
      var prefix := ['h', 't', 't', 'p', 's', ':', '/', '/'];
      assert IsHttps(url) <==> forall i | 0 <= i < 8 :: LowerAscii(url[i]) == prefix[i];
    }
  }

  function Ownerships(docs: seq<Doc>): seq<Doc> {
    if docs == [] then []
    else if docs[0].kind == OwnershipDocument then [docs[0]] + Ownerships(docs[1..])
    else Ownerships(docs[1..])
  }

  function WithoutOwnership(docs: seq<Doc>): seq<Doc> {
    if docs == [] then []
    else if docs[0].kind == OwnershipDocument then WithoutOwnership(docs[1..])
    else [docs[0]] + WithoutOwnership(docs[1..])
  }

  /** The two filters, document by document. */
  lemma {:induction false} OwnershipsExactly(docs: seq<Doc>, d: Doc)
    ensures Ownerships([]) == []
    ensures Ownerships(docs + [d]) == Ownerships(docs) + if d.kind == OwnershipDocument then [d] else []
  {
    var all := docs + [d];
    if docs == [] {
      assert all[1..] == [];
    } else {
      OwnershipsExactly(docs[1..], d);
      assert all[0] == docs[0] && all[1..] == docs[1..] + [d];
    }
  }

  lemma {:induction false} WithoutOwnershipExactly(docs: seq<Doc>, d: Doc)
    ensures WithoutOwnership([]) == []
    ensures WithoutOwnership(docs + [d]) == WithoutOwnership(docs) + if d.kind == OwnershipDocument then [] else [d]
  {
    var all := docs + [d];
    if docs == [] {
      assert all[1..] == [];
    } else {
      WithoutOwnershipExactly(docs[1..], d);
      assert all[0] == docs[0] && all[1..] == docs[1..] + [d];
    }
  }

  function FindDocumentTypeErrors(docs: seq<Doc>): Option<DocError> {
    var ownership := Ownerships(docs);
    if |ownership| == 0 then Some(OwnershipRequired)
    else if |ownership| > 1 then Some(OnlyOneOwnership)
    else if !IsHttps(ownership[0].url) then Some(OwnershipInvalid)
    else None
  }

  /** Exactly one ownership document, with an https address. */
  predicate DocsOk(docs: seq<Doc>) {
    |Ownerships(docs)| == 1 && IsHttps(Ownerships(docs)[0].url)
  }

  lemma DocsOkExactly(docs: seq<Doc>)
    ensures FindDocumentTypeErrors(docs).None? <==> DocsOk(docs)
  {
  }

  lemma {:induction false} ReplaceOwnership(docs: seq<Doc>, d: Doc)
    requires d.kind == OwnershipDocument
    ensures Ownerships(WithoutOwnership(docs) + [d]) == [d]
    ensures WithoutOwnership(WithoutOwnership(docs) + [d]) == WithoutOwnership(docs)
  {
    OwnershipsExactly(WithoutOwnership(docs), d);
    WithoutOwnershipExactly(WithoutOwnership(docs), d);
    NoneIsLeft(docs);
  }

  lemma {:induction false} NoneIsLeft(docs: seq<Doc>)
    ensures Ownerships(WithoutOwnership(docs)) == []
    ensures WithoutOwnership(WithoutOwnership(docs)) == WithoutOwnership(docs)
  {
    if docs != [] {
      NoneIsLeft(docs[1..]);
      if docs[0].kind != OwnershipDocument {
        assert WithoutOwnership(docs)[1..] == WithoutOwnership(docs[1..]);
      }
    }
  }

  // --------------------------------------------------------- the classification

  function ApplyClassification(existing: Classification, body: Classification): Result<Classification> {
    match body.propertyStatus
    case None => if body.disputeType.Some? then Failure(400) else Success(existing)
    case Some(Clear) => if body.disputeType.Some? then Failure(400) else Success(Classification(Some(Clear), None))
    case Some(Disputed) =>
      if body.disputeType.None? then Failure(400) else Success(Classification(Some(Disputed), body.disputeType))
  }

  predicate ClassificationOk(c: Classification) {
    c.propertyStatus.Some? && (c.propertyStatus == Some(Disputed) <==> c.disputeType.Some?)
  }

  // ------------------------------------------------------------ create and edit

  /** A new property is published at once. */
  function Create(seller: nat, body: Body): Result<Property> {
    if body.title == "" || body.area == "" || body.classification.propertyStatus.None? then Failure(400)
    else
      var classification := ApplyClassification(Classification(None, None), body.classification);
      var docs := body.documents.GetOr([]);
      if classification.Failure? || body.latitude.None? || body.longitude.None? || FindDocumentTypeErrors(docs).Some?
      then Failure(400)
      else
        Success(Property(seller, body.latitude, body.longitude, classification.value, docs,
                         CalcHealth(|docs|), Approved))
  }

  /** The classification that a request stores, given the one stored already. */
  predicate StoresSent(sent: Classification, kept: Classification, stored: Classification) {
    match sent.propertyStatus
    case None => stored == kept
    case Some(Clear) => stored.propertyStatus == Some(Clear) && stored.disputeType == None
    case Some(Disputed) => stored.propertyStatus == Some(Disputed) && stored.disputeType == sent.disputeType
  }

  /** Thirty and eight for each document, at most ninety-five. */
  predicate HealthOf(health: int, docCount: nat) {
    health <= 95 && health <= 30 + 8 * docCount && (health == 95 || health == 30 + 8 * docCount)
  }

  /** Both status and dispute type as the rules want them, or nothing sent. */
  predicate ClassificationSent(c: Classification) {
    match c.propertyStatus
    case None => c.disputeType.None?
    case Some(Clear) => c.disputeType.None?
    case Some(Disputed) => c.disputeType.Some?
  }

  /** Title, area, a status with the dispute type it asks for, both coordinates, one https ownership document. */
  predicate CreateAccepted(body: Body) {
    && body.title != "" && body.area != "" && body.classification.propertyStatus != None
    && ClassificationSent(body.classification) && body.latitude != None && body.longitude != None
    && body.documents != None && DocsOk(body.documents.value)
  }

  /** The property has what was sent, and is visible. */
  predicate HoldsSent(p: Property, seller: nat, body: Body) {
    && p.seller == seller && p.status == Approved
    && p.latitude == body.latitude && p.longitude == body.longitude
    && StoresSent(body.classification, p.classification, p.classification)
    && body.documents == Some(p.docs) && HealthOf(p.health, |p.docs|)
  }

  /**
   The create handler. It is refused exactly without a title, an area, a status
   with the dispute type it asks for, a coordinate, or one https ownership
   document; else the property has what was sent and is published at once.
   */
  method CreateProperty(seller: nat, body: Body) returns (r: Result<Property>)
    ensures r == Create(seller, body)
    ensures r.Success? <==> CreateAccepted(body)
    ensures r.Failure? ==> r == Failure(400)
    ensures r.Success? ==> HoldsSent(r.value, seller, body)
  {
    if body.title == "" || body.area == "" {
      return Failure(400);
    }
    if body.classification.propertyStatus.None? {
      return Failure(400);
    }
    var classification := ApplyClassification(Classification(None, None), body.classification);
    if classification.Failure? || body.latitude.None? || body.longitude.None? {
      return Failure(400);
    }
    var docs := body.documents.GetOr([]);
    if FindDocumentTypeErrors(docs).Some? {
      return Failure(400);
    }
    return Success(Property(seller, body.latitude, body.longitude, classification.value, docs,
                            CalcHealth(|docs|), Approved));
  }

  /** What an edit writes: everything but the owner and the status. */
  datatype Write = Write(
    latitude: Option<real>, longitude: Option<real>, classification: Classification, docs: seq<Doc>, health: int)

  function Plan(existing: Property, body: Body): Result<Write> {
    var classification := ApplyClassification(existing.classification, body.classification);
    if classification.Failure? then Failure(400)
    else if body.documents.Some? && FindDocumentTypeErrors(body.documents.value).Some? then Failure(400)
    else
      var docs := body.documents.GetOr(existing.docs);
      if body.ownershipUrl.GetOr("") == "" then Success(PlannedWrite(existing, body, classification.value, docs))
      else if !IsHttps(body.ownershipUrl.value) then Failure(400)
      else Success(PlannedWrite(existing, body, classification.value,
                                WithoutOwnership(docs) + [Doc(OwnershipDocument, body.ownershipUrl.value)]))
  }

  function PlannedWrite(existing: Property, body: Body, classification: Classification, docs: seq<Doc>): Write {
    Write(if body.latitude.Some? then body.latitude else existing.latitude,
          if body.longitude.Some? then body.longitude else existing.longitude,
          classification, docs, CalcHealth(|docs|))
  }

  /** An ownership address is sent. */
  predicate OwnershipSent(body: Body) {
    body.ownershipUrl.GetOr("") != ""
  }

  /** None of the three rules is broken. */
  predicate EditAccepted(body: Body) {
    && ClassificationSent(body.classification)
    && (body.documents != None ==> DocsOk(body.documents.value))
    && (OwnershipSent(body) ==> IsHttps(body.ownershipUrl.value))
  }

  /** What is sent is stored, and what is not sent is kept; the named ownership document replaces any other. */
  predicate StoresEdit(existing: Property, body: Body, w: Write) {
    var docs := if body.documents != None then body.documents.value else existing.docs;
    && StoresSent(body.classification, existing.classification, w.classification)
    && w.latitude == (if body.latitude != None then body.latitude else existing.latitude)
    && w.longitude == (if body.longitude != None then body.longitude else existing.longitude)
    && w.docs == (if OwnershipSent(body)
                  then WithoutOwnership(docs) + [Doc(OwnershipDocument, body.ownershipUrl.value)] else docs)
    && (OwnershipSent(body) ==> Ownerships(w.docs) == [Doc(OwnershipDocument, body.ownershipUrl.value)])
    && HealthOf(w.health, |w.docs|)
  }

  lemma PlanExactly(existing: Property, body: Body)
    ensures var r := Plan(existing, body);
            && (r.Success? <==> EditAccepted(body))
            && (r.Failure? ==> r == Failure(400))
            && (r.Success? ==> StoresEdit(existing, body, r.value))
            && (PropertyOk(existing) && r.Success? ==> WriteOk(r.value) && PropertyOk(Written(existing, r.value)))
  {
    if PropertyOk(existing) {
      PlanIsOk(existing, body);
    }
    if OwnershipSent(body) {
      ReplaceOwnership(body.documents.GetOr(existing.docs), Doc(OwnershipDocument, body.ownershipUrl.value));
    }
    DocsOkExactly(body.documents.GetOr([]));
  }

  /**
   The update handler's reassignments of `docs` and `docCount`. A request is
   refused exactly when it breaks one of three rules. An accepted one keeps a
   good row good. It stores the classification, coordinates and documents sent,
   each stored one where none is sent, with the named ownership document last in
   place of any other; and the health of the documents stored.
   */
  method PlanUpdate(existing: Property, body: Body) returns (r: Result<Write>)
    ensures r == Plan(existing, body)
    ensures r.Success? <==> EditAccepted(body)
    ensures r.Failure? ==> r == Failure(400)
    ensures r.Success? ==> StoresEdit(existing, body, r.value)
    ensures PropertyOk(existing) && r.Success? ==> WriteOk(r.value) && PropertyOk(Written(existing, r.value))
  {
    PlanExactly(existing, body);
    var classification := ApplyClassification(existing.classification, body.classification);
    if classification.Failure? {
      return Failure(400);
    }
    var docs, docCount := existing.docs, |existing.docs|;
    if body.documents.Some? {
      var incoming := body.documents.value;
      if FindDocumentTypeErrors(incoming).Some? {
        return Failure(400);
      }
      docs, docCount := incoming, |incoming|;
    }
    if body.ownershipUrl.Some? && body.ownershipUrl.value != "" {
      if !IsHttps(body.ownershipUrl.value) {
        return Failure(400);
      }
      docs := WithoutOwnership(docs) + [Doc(OwnershipDocument, body.ownershipUrl.value)];
      docCount := |docs|;
    }
    var latitude := if body.latitude.Some? then body.latitude else existing.latitude;
    var longitude := if body.longitude.Some? then body.longitude else existing.longitude;
    return Success(Write(latitude, longitude, classification.value, docs, CalcHealth(docCount)));
  }

  function Written(p: Property, w: Write): Property {
    p.(latitude := w.latitude, longitude := w.longitude, classification := w.classification,
       docs := w.docs, health := w.health)
  }

  // ----------------------------------------------------------------- the system

  datatype State = State(rows: seq<Property>, edits: map<nat, (nat, Write)>, suspensions: map<nat, nat>)

  datatype Step =
    | OwnerCreate(seller: nat, body: Body)
    | ReadEdit(call: nat, seller: nat, id: nat, body: Body)
    | WriteEdit(call: nat)
    | OwnerDelete(seller: nat, id: nat)
    | Approve(id: nat)
    | Reject(id: nat)
    | ReadSuspend(call: nat, id: nat)
    | WriteSuspend(call: nat)
    | Suspend(id: nat)
    | Unsuspend(id: nat)
    | AdminDelete(id: nat)

  function SetStatus(s: State, id: nat, status: Status): State
    requires id < |s.rows|
  {
    s.(rows := s.rows[id := s.rows[id].(status := status)])
  }

  /** A moderation update that only matches rows in one status. */
  function Guarded(s: State, id: nat, from: Status, to: Status): State {
    if id < |s.rows| && s.rows[id].status == from then SetStatus(s, id, to) else s
  }

  predicate MaySuspend(s: State, id: nat) {
    id < |s.rows| && s.rows[id].status != Deleted && s.rows[id].status != Suspended
  }

  function Apply(s: State, step: Step): State {
    match step
    case OwnerCreate(seller, body) =>
      var p := Create(seller, body);
      if p.Success? then s.(rows := s.rows + [p.value]) else s
    case ReadEdit(call, seller, id, body) =>
      if call in s.edits || id >= |s.rows| || s.rows[id].seller != seller then s
      else
        var plan := Plan(s.rows[id], body);
        if plan.Success? then s.(edits := s.edits[call := (id, plan.value)]) else s
    case WriteEdit(call) =>
      if call in s.edits && s.edits[call].0 < |s.rows| then
        var (id, w) := s.edits[call];
        s.(rows := s.rows[id := Written(s.rows[id], w)], edits := s.edits - {call})
      else s
    case OwnerDelete(seller, id) =>
      if id < |s.rows| && s.rows[id].seller == seller then SetStatus(s, id, Deleted) else s
    case Approve(id) =>
      if id < |s.rows| && s.rows[id].latitude.Some? && s.rows[id].longitude.Some?
      then Guarded(s, id, Pending, Approved) else s
    case Reject(id) => Guarded(s, id, Pending, Rejected)
    case ReadSuspend(call, id) =>
      if MaySuspend(s, id) && call !in s.suspensions then s.(suspensions := s.suspensions[call := id]) else s
    case WriteSuspend(call) =>
      if call in s.suspensions && s.suspensions[call] < |s.rows| then
        SetStatus(s, s.suspensions[call], Suspended).(suspensions := s.suspensions - {call})
      else s
    case Suspend(id) => if MaySuspend(s, id) then SetStatus(s, id, Suspended) else s
    case Unsuspend(id) => Guarded(s, id, Suspended, Pending)
    case AdminDelete(id) => if id < |s.rows| && s.rows[id].status != Deleted then SetStatus(s, id, Deleted) else s
  }

  function Run(s: State, steps: seq<Step>): State {
    if steps == [] then s else Apply(Run(s, steps[..|steps| - 1]), steps[|steps| - 1])
  }

  // ---------------------------------------------------------------- the invariant

  predicate PropertyOk(p: Property) {
    && p.latitude.Some? && p.longitude.Some?
    && DocsOk(p.docs) && p.health == CalcHealth(|p.docs|) && ClassificationOk(p.classification)
  }

  predicate WriteOk(w: Write) {
    && w.latitude.Some? && w.longitude.Some?
    && DocsOk(w.docs) && w.health == CalcHealth(|w.docs|) && ClassificationOk(w.classification)
  }

  ghost predicate Inv(s: State) {
    && (forall i | 0 <= i < |s.rows| :: PropertyOk(s.rows[i]))
    && (forall call | call in s.edits :: WriteOk(s.edits[call].1))
  }

  lemma CreateIsOk(seller: nat, body: Body)
    ensures var p := Create(seller, body); p.Success? ==> PropertyOk(p.value) && p.value.status == Approved
  {
  }

  lemma PlanIsOk(existing: Property, body: Body)
    requires PropertyOk(existing)
    ensures Plan(existing, body).Success? ==> WriteOk(Plan(existing, body).value)
  {
    if body.ownershipUrl.Some? {
      ReplaceOwnership(body.documents.GetOr(existing.docs), Doc(OwnershipDocument, body.ownershipUrl.value));
    }
  }

  lemma StepKeepsInv(s: State, step: Step)
    requires Inv(s)
    ensures Inv(Apply(s, step))
  {
    match step
    case OwnerCreate(seller, body) => CreateIsOk(seller, body);
    case ReadEdit(_, _, id, body) =>
      if id < |s.rows| {
        PlanIsOk(s.rows[id], body);
      }
    case _ =>
  }

  /**
   Starting from no properties, every interleaving of owner edits (stale reads
   included) and moderation keeps both coordinates set, exactly one https
   ownership document stored, the health of the stored document count and a
   consistent classification.
   */
  lemma {:induction false} PropertiesStayOk(steps: seq<Step>, id: nat)
    ensures var s := Run(State([], map[], map[]), steps); Inv(s) && (id < |s.rows| ==> PropertyOk(s.rows[id]))
  {
    if steps != [] {
      PropertiesStayOk(steps[..|steps| - 1], id);
      StepKeepsInv(Run(State([], map[], map[]), steps[..|steps| - 1]), steps[|steps| - 1]);
    }
  }

  // ------------------------------------------------------ where a row comes from

  const NOTHING := State([], map[], map[])

  /** What a row has that an edit writes. */
  function FieldsOf(p: Property): Write {
    Write(p.latitude, p.longitude, p.classification, p.docs, p.health)
  }

  /** Step j of a run created row id with these fields, or wrote them as an edit. */
  ghost predicate SetAt(steps: seq<Step>, id: nat, fields: Write, j: nat) {
    j < |steps| &&
    var before := Run(NOTHING, steps[..j]);
    match steps[j]
    case OwnerCreate(seller, body) =>
      |before.rows| == id && Create(seller, body).Success? && FieldsOf(Create(seller, body).value) == fields
    case WriteEdit(call) => call in before.edits && before.edits[call] == (id, fields) && id < |before.rows|
    case _ => false
  }

  ghost predicate LastSetAt(steps: seq<Step>, id: nat, fields: Write, j: nat) {
    SetAt(steps, id, fields, j) && forall m: nat, other | j < m < |steps| :: !SetAt(steps, id, other, m)
  }

  lemma SetByPrefix(steps: seq<Step>, id: nat, fields: Write, j: nat)
    requires steps != [] && j < |steps| - 1
    ensures SetAt(steps, id, fields, j) <==> SetAt(steps[..|steps| - 1], id, fields, j)
  {
    assert steps[..|steps| - 1][..j] == steps[..j];
  }

  /** A row's fields are those of the last create or edit committed on it, whatever moderation did since. */
  lemma {:induction false} RowIsLastWritten(steps: seq<Step>, id: nat)
    ensures var rows := Run(NOTHING, steps).rows;
            id < |rows| ==> exists j: nat :: LastSetAt(steps, id, FieldsOf(rows[id]), j)
    decreases |steps|
  {
    var t := Run(NOTHING, steps);
    if steps != [] && id < |t.rows| {
      var init, last := steps[..|steps| - 1], steps[|steps| - 1];
      var before, fields := Run(NOTHING, init), FieldsOf(t.rows[id]);
      RowIsLastWritten(init, id);
      if SetAt(steps, id, fields, |init|) {
        assert LastSetAt(steps, id, fields, |init|);
      } else {
        OnlySettersSet(steps, id);
        var j: nat :| LastSetAt(init, id, fields, j);
        forall m: nat, other: Write | j <= m < |init|
          ensures SetAt(steps, id, other, m) <==> SetAt(init, id, other, m)
        {
          SetByPrefix(steps, id, other, m);
        }
        assert LastSetAt(steps, id, fields, j);
      }
    }
  }

  /** The last step sets the row's fields as they then are, or leaves them and sets nothing. */
  lemma OnlySettersSet(steps: seq<Step>, id: nat)
    requires steps != [] && id < |Run(NOTHING, steps).rows|
    ensures var init, fields := steps[..|steps| - 1], FieldsOf(Run(NOTHING, steps).rows[id]);
            SetAt(steps, id, fields, |init|) ||
            (&& id < |Run(NOTHING, init).rows| && FieldsOf(Run(NOTHING, init).rows[id]) == fields
             && forall other :: !SetAt(steps, id, other, |init|))
  {
    var init, last := steps[..|steps| - 1], steps[|steps| - 1];
    var before := Run(NOTHING, init);
    if id < |before.rows| {
      StepMovesExactly(before, last, id);
    }
  }

  /** Step i of the run is the owner's create of the row, or the start of the owner's edit of it, with this request. */
  ghost predicate AskedAt(steps: seq<Step>, id: nat, body: Body, i: nat) {
    i < |steps| &&
    var before := Run(NOTHING, steps[..i]);
    match steps[i]
    case OwnerCreate(seller, sent) => sent == body && |before.rows| == id && Create(seller, body).Success?
    case ReadEdit(_, seller, at, sent) =>
      sent == body && at == id && id < |before.rows| && before.rows[id].seller == seller
      && Plan(before.rows[id], body).Success?
    case _ => false
  }

  /** Some request of the owner on this row sent exactly this classification. */
  ghost predicate WasSent(steps: seq<Step>, id: nat, c: Classification) {
    exists i: nat, body :: AskedAt(steps, id, body, i) && body.classification.propertyStatus.Some?
                           && StoresSent(body.classification, c, c)
  }

  lemma SentStays(steps: seq<Step>, id: nat, c: Classification)
    requires steps != [] && WasSent(steps[..|steps| - 1], id, c)
    ensures WasSent(steps, id, c)
  {
    var init := steps[..|steps| - 1];
    var i: nat, body :| AskedAt(init, id, body, i) && body.classification.propertyStatus.Some?
                        && StoresSent(body.classification, c, c);
    assert init[..i] == steps[..i];
    assert AskedAt(steps, id, body, i);
  }

  lemma SentNow(steps: seq<Step>, id: nat, body: Body, kept: Classification, c: Classification)
    requires steps != [] && AskedAt(steps, id, body, |steps| - 1) && StoresSent(body.classification, kept, c)
    requires body.classification.propertyStatus.None? ==> WasSent(steps[..|steps| - 1], id, kept)
    ensures WasSent(steps, id, c)
  {
    if body.classification.propertyStatus.None? {
      SentStays(steps, id, kept);
    }
  }

  lemma PlanStoresSent(existing: Property, body: Body)
    ensures Plan(existing, body).Success? ==>
              StoresSent(body.classification, existing.classification, Plan(existing, body).value.classification)
  {
  }

  lemma CreateStoresSent(seller: nat, body: Body)
    ensures Create(seller, body).Success? ==>
              body.classification.propertyStatus.Some? &&
              StoresSent(body.classification, Create(seller, body).value.classification,
                         Create(seller, body).value.classification)
  {
  }

  /** The classification of the stored row, and of the edit in flight, was sent. */
  ghost predicate RowSent(steps: seq<Step>, id: nat) {
    var t := Run(NOTHING, steps);
    id < |t.rows| ==> WasSent(steps, id, t.rows[id].classification)
  }

  ghost predicate EditSent(steps: seq<Step>, call: nat) {
    var t := Run(NOTHING, steps);
    call in t.edits ==> WasSent(steps, t.edits[call].0, t.edits[call].1.classification)
  }

  lemma EditIsPlanned(s: State, step: Step, call: nat)
    requires call in Apply(s, step).edits && !(call in s.edits && s.edits[call] == Apply(s, step).edits[call])
    ensures step.ReadEdit? && step.call == call && step.id < |s.rows| && s.rows[step.id].seller == step.seller
    ensures Plan(s.rows[step.id], step.body).Success?
    ensures Apply(s, step).edits[call] == (step.id, Plan(s.rows[step.id], step.body).value)
  {
  }

  lemma RowIsCreated(s: State, step: Step, id: nat)
    requires |s.rows| <= id < |Apply(s, step).rows|
    ensures id == |s.rows| && step.OwnerCreate? && Create(step.seller, step.body).Success?
    ensures Apply(s, step).rows[id] == Create(step.seller, step.body).value
  {
  }

  lemma LastStepSends(init: seq<Step>, steps: seq<Step>, id: nat, call: nat)
    requires steps != [] && init == steps[..|steps| - 1]
    requires (forall i: nat :: RowSent(init, i)) && forall c: nat :: EditSent(init, c)
    ensures RowSent(steps, id) && EditSent(steps, call)
  {
    var last := steps[|steps| - 1];
    var before, t := Run(NOTHING, init), Run(NOTHING, steps);
    if id < |before.rows| {
      StepMovesExactly(before, last, id);
      assert RowSent(init, id);
      assert last.WriteEdit? ==> EditSent(init, last.call);
      SentStays(steps, id, t.rows[id].classification);
    } else if id < |t.rows| {
      RowIsCreated(before, last, id);
      CreateStoresSent(last.seller, last.body);
      SentNow(steps, id, last.body, t.rows[id].classification, t.rows[id].classification);
    }
    if call in t.edits {
      if call in before.edits && before.edits[call] == t.edits[call] {
        assert EditSent(init, call);
        SentStays(steps, t.edits[call].0, t.edits[call].1.classification);
      } else {
        EditIsPlanned(before, last, call);
        var row := before.rows[last.id];
        assert RowSent(init, last.id);
        PlanStoresSent(row, last.body);
        SentNow(steps, last.id, last.body, row.classification, t.edits[call].1.classification);
      }
    }
  }

  /** Nothing in a run makes up a classification: each stored or pending one was sent by the row's owner. */
  lemma {:induction false} ClassificationWasSent(steps: seq<Step>, id: nat, call: nat)
    ensures RowSent(steps, id) && EditSent(steps, call)
    decreases |steps|
  {
    if steps != [] {
      var init := steps[..|steps| - 1];
      forall i: nat ensures RowSent(init, i) && EditSent(init, i) {
        ClassificationWasSent(init, i, i);
      }
      LastStepSends(init, steps, id, call);
    }
  }

  // ------------------------------------------------------- creates and edits end

  /** A create that is accepted adds one row, with what was sent; any other changes nothing. */
  lemma CreateEnds(s: State, before: seq<Step>, seller: nat, body: Body)
    ensures var (a, t) := (Run(s, before), Run(s, before + [OwnerCreate(seller, body)]));
            if CreateAccepted(body) then
              && |t.rows| == |a.rows| + 1 && t == a.(rows := a.rows + [t.rows[|a.rows|]])
              && HoldsSent(t.rows[|a.rows|], seller, body)
            else t == a
  {
    RunAppends(s, before, OwnerCreate(seller, body));
    DocsOkExactly(body.documents.GetOr([]));
  }

  lemma RunAppends(s: State, steps: seq<Step>, step: Step)
    ensures Run(s, steps + [step]) == Apply(Run(s, steps), step)
  {
    var all := steps + [step];
    assert all[..|all| - 1] == steps;
  }

  /** A step that is not this edit's own leaves it in flight. */
  lemma {:induction false} EditStaysInFlight(s: State, steps: seq<Step>, call: nat)
    requires forall i | 0 <= i < |steps| :: !((steps[i].ReadEdit? || steps[i].WriteEdit?) && steps[i].call == call)
    ensures call in Run(s, steps).edits <==> call in s.edits
    ensures call in s.edits ==> Run(s, steps).edits[call] == s.edits[call]
    ensures |s.rows| <= |Run(s, steps).rows|
  {
    RowsStayAlongRuns(s, steps);
    if steps != [] {
      EditStaysInFlight(s, steps[..|steps| - 1], call);
    }
  }

  lemma {:induction false} RunsInParts(s: State, a: seq<Step>, b: seq<Step>)
    ensures Run(s, a + b) == Run(Run(s, a), b)
    decreases |b|
  {
    if b == [] {
      assert a + b == a;
    } else {
      var init, last := b[..|b| - 1], b[|b| - 1];
      RunsInParts(s, a, init);
      RunAppends(s, a + init, last);
      assert a + b == a + init + [last];
    }
  }

  /**
   How an edit ends that reads its row after `a` and writes it after `b`: accepted
   exactly by the three rules on the caller's own row, it writes just what was
   asked for on the row it read, over whatever the row has become; else nothing.
   */
  lemma {:induction false} EditEnds(s: State, a: seq<Step>, b: seq<Step>,
                                    call: nat, seller: nat, id: nat, body: Body)
    requires call !in Run(s, a).edits
    requires forall i | 0 <= i < |b| :: !((b[i].ReadEdit? || b[i].WriteEdit?) && b[i].call == call)
    ensures var read := Run(s, a);
            var late := Run(s, a + [ReadEdit(call, seller, id, body)] + b);
            var t := Run(s, a + [ReadEdit(call, seller, id, body)] + b + [WriteEdit(call)]);
            if id < |read.rows| && read.rows[id].seller == seller && EditAccepted(body) then
              && id < |late.rows|
              && exists w :: StoresEdit(read.rows[id], body, w)
                   && t == late.(edits := late.edits - {call}, rows := late.rows[id := late.rows[id].(
                               latitude := w.latitude, longitude := w.longitude,
                               classification := w.classification, docs := w.docs, health := w.health)])
            else t == late
  {
    var start := ReadEdit(call, seller, id, body);
    var read, began := Run(s, a), Apply(Run(s, a), start);
    RunAppends(s, a, start);
    RunsInParts(s, a + [start], b);
    EditStaysInFlight(began, b, call);
    RunAppends(s, a + [start] + b, WriteEdit(call));
    if id < |read.rows| && read.rows[id].seller == seller {
      PlanExactly(read.rows[id], body);
      if EditAccepted(body) {
        assert StoresEdit(read.rows[id], body, Plan(read.rows[id], body).value);
      }
    }
  }

  // ------------------------------------------------------------------- statuses

  lemma RowsStay(s: State, step: Step)
    ensures |s.rows| <= |Apply(s, step).rows|
    ensures forall i | 0 <= i < |s.rows| :: Apply(s, step).rows[i].seller == s.rows[i].seller
  {
  }

  /** What each step makes of a row's status. */
  ghost function StatusAfter(s: State, step: Step, id: nat): Status
    requires id < |s.rows|
  {
    var p := s.rows[id];
    match step
    case OwnerDelete(seller, at) => if at == id && p.seller == seller then Deleted else p.status
    case Approve(at) =>
      if at == id && p.status == Pending && p.latitude != None && p.longitude != None then Approved else p.status
    case Reject(at) => if at == id && p.status == Pending then Rejected else p.status
    case Suspend(at) =>
      if at == id && p.status != Deleted && p.status != Suspended then Suspended else p.status
    case WriteSuspend(call) => if call in s.suspensions && s.suspensions[call] == id then Suspended else p.status
    case Unsuspend(at) => if at == id && p.status == Suspended then Pending else p.status
    case AdminDelete(at) => if at == id then Deleted else p.status
    case _ => p.status
  }

  /** A step moves a row's status exactly so, and only a written edit changes anything else about it. */
  lemma StepMovesExactly(s: State, step: Step, id: nat)
    requires id < |s.rows|
    ensures var a, b := s.rows[id], Apply(s, step).rows[id];
            if step.WriteEdit? && step.call in s.edits && s.edits[step.call].0 == id
            then b == Written(a, s.edits[step.call].1)
            else b == a.(status := StatusAfter(s, step, id))
    ensures step.ReadSuspend? ==>
              Apply(s, step).suspensions ==
              if step.id < |s.rows| && s.rows[step.id].status != Deleted && s.rows[step.id].status != Suspended
                 && step.call !in s.suspensions
              then s.suspensions[step.call := step.id] else s.suspensions
  {
  }

  lemma ApprovedOnlyFromPending(s: State, step: Step, id: nat)
    requires id < |s.rows| && s.rows[id].status != Approved
    ensures Apply(s, step).rows[id].status == Approved ==> step == Approve(id) && s.rows[id].status == Pending
  {
  }

  predicate ApprovedAt(s: State, steps: seq<Step>, id: nat, i: nat) {
    i < |steps| && steps[i] == Approve(id)
    && id < |Run(s, steps[..i]).rows| && Run(s, steps[..i]).rows[id].status == Pending
  }

  lemma {:induction false} RowsStayAlongRuns(s: State, steps: seq<Step>)
    ensures |s.rows| <= |Run(s, steps).rows|
  {
    if steps != [] {
      RowsStayAlongRuns(s, steps[..|steps| - 1]);
      RowsStay(Run(s, steps[..|steps| - 1]), steps[|steps| - 1]);
    }
  }

  /**
   A suspended (or pending, rejected, deleted) property is visible again only
   after a later approval that found it PENDING, whatever is interleaved.
   */
  lemma {:induction false} ReapprovalNeedsReview(s: State, steps: seq<Step>, id: nat)
    requires id < |s.rows| && s.rows[id].status != Approved
    ensures id < |Run(s, steps).rows|
    ensures Run(s, steps).rows[id].status == Approved ==> exists i: nat :: ApprovedAt(s, steps, id, i)
  {
    RowsStayAlongRuns(s, steps);
    if steps != [] && Run(s, steps).rows[id].status == Approved {
      var init, last := steps[..|steps| - 1], steps[|steps| - 1];
      ReapprovalNeedsReview(s, init, id);
      if Run(s, init).rows[id].status == Approved {
        var i: nat :| ApprovedAt(s, init, id, i);
        assert steps[..i] == init[..i];
        assert ApprovedAt(s, steps, id, i);
      } else {
        ApprovedOnlyFromPending(Run(s, init), last, id);
        assert ApprovedAt(s, steps, id, |steps| - 1);
      }
    }
  }

  /** DELETED is left exactly by a suspension that read the status before the deletion. */
  lemma DeletedIsLeftExactlyByStaleSuspension(s: State, step: Step, id: nat)
    requires id < |s.rows| && s.rows[id].status == Deleted
    ensures id < |Apply(s, step).rows|
    ensures Apply(s, step).rows[id].status != Deleted <==>
            step.WriteSuspend? && step.call in s.suspensions && s.suspensions[step.call] == id
  {
  }

  /** With undivided suspensions a deleted property stays deleted, through any edits. */
  lemma {:induction false} DeletedIsFinal(s: State, steps: seq<Step>, id: nat)
    requires id < |s.rows| && s.rows[id].status == Deleted
    requires forall i | 0 <= i < |steps| :: !steps[i].WriteSuspend?
    ensures id < |Run(s, steps).rows| && Run(s, steps).rows[id].status == Deleted
  {
    if steps != [] {
      DeletedIsFinal(s, steps[..|steps| - 1], id);
      DeletedIsLeftExactlyByStaleSuspension(Run(s, steps[..|steps| - 1]), steps[|steps| - 1], id);
    }
  }

  /** Otherwise moderation alone can bring a property its owner deleted back to buyers. */
  lemma StaleSuspensionRevivesDeleted(s: State, t: State, p: Property)
    requires PropertyOk(p) && p.status == Approved
    requires s == Apply(Apply(State([p], map[], map[]), ReadSuspend(0, 0)), OwnerDelete(p.seller, 0))
    requires t == Apply(Apply(Apply(s, WriteSuspend(0)), Unsuspend(0)), Approve(0))
    ensures s.rows == [p.(status := Deleted)]
    ensures t.rows == [p]
  {
    assert s.suspensions == map[0 := 0];
  }
}

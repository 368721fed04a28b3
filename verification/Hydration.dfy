/**
 Rows fetched by id come back in any order; a map from id to row and a pass over
 the wanted ids restore theirs. Used for ranked search results and for a buyer's
 saved and liked items.
 */
module Hydration {
  type Id = string

  datatype Table = Listings | Properties | Posts
  datatype Row = Row(id: Id, approved: bool, source: Table)

  /** `new Map(rows.map(r => [r.id, r]))`: a later row replaces an earlier one. */
  function ById(rows: seq<Row>): map<Id, Row> {
    if rows == [] then map[] else ById(rows[..|rows| - 1])[rows[|rows| - 1].id := rows[|rows| - 1]]
  }

  /** The rows of the wanted ids, in their order; an id without a row is skipped. */
  function Hydrate(ids: seq<Id>, rows: seq<Row>): seq<Row> {
    Pick(ids, ById(rows))
  }

  function Pick(ids: seq<Id>, byId: map<Id, Row>): seq<Row> {
    if ids == [] then []
    else if ids[0] in byId then [byId[ids[0]]] + Pick(ids[1..], byId)
    else Pick(ids[1..], byId)
  }

  /** The ids still approved in a table, in the given order. */
  function Visible(ids: seq<Id>, table: map<Id, Row>): seq<Id> {
    if ids == [] then []
    else if ids[0] in table && table[ids[0]].approved then [ids[0]] + Visible(ids[1..], table)
    else Visible(ids[1..], table)
  }

  /** Rows carry their own id. */
  ghost predicate TableOk(table: map<Id, Row>) {
    forall id | id in table :: table[id].id == id
  }

  /** `rows` answers the query "id in ids and approved", in whatever order. */
  ghost predicate Answers(rows: seq<Row>, ids: set<Id>, table: map<Id, Row>) {
    && (forall i, j | 0 <= i < j < |rows| :: rows[i].id != rows[j].id)
    && (forall r :: r in rows <==> r.id in ids && r.id in table && table[r.id] == r && r.approved)
  }

  lemma {:induction false} ByIdMembers(rows: seq<Row>)
    requires forall i, j | 0 <= i < j < |rows| :: rows[i].id != rows[j].id
    ensures forall id :: id in ById(rows) <==> exists r :: r in rows && r.id == id
    ensures forall id | id in ById(rows) :: ById(rows)[id] in rows && ById(rows)[id].id == id
  {
    if rows != [] {
      var init, r := rows[..|rows| - 1], rows[|rows| - 1];
      ByIdMembers(init);
      assert rows == init + [r];
      assert r in rows;
    }
  }

  lemma {:induction false} PickVisible(ids: seq<Id>, byId: map<Id, Row>, table: map<Id, Row>)
    requires TableOk(table)
    requires forall id | id in ids :: id in byId <==> id in table && table[id].approved
    requires forall id | id in ids && id in byId :: byId[id] == table[id]
    ensures var picked, visible := Pick(ids, byId), Visible(ids, table);
            && |picked| == |visible|
            && forall i | 0 <= i < |picked| ::
              visible[i] in table && picked[i] == table[visible[i]] && picked[i].id == visible[i]
  {
    if ids != [] {
      PickVisible(ids[1..], byId, table);
    }
  }

  lemma {:induction false} VisibleIsSubsequence(ids: seq<Id>, table: map<Id, Row>)
    ensures forall id :: id in Visible(ids, table) <==> id in ids && id in table && table[id].approved
    ensures (forall i, j | 0 <= i < j < |ids| :: ids[i] != ids[j]) ==>
              forall i, j | 0 <= i < j < |Visible(ids, table)| :: Visible(ids, table)[i] != Visible(ids, table)[j]
  {
    if ids != [] {
      VisibleIsSubsequence(ids[1..], table);
      assert ids == [ids[0]] + ids[1..];
    }
  }

  lemma {:induction false} VisibleInRankOrder(ids: seq<Id>, table: map<Id, Row>)
    requires forall i, j | 0 <= i < j < |ids| :: ids[i] != ids[j]
    ensures forall i, j, p, q | 0 <= i < j < |Visible(ids, table)| && 0 <= p < |ids| && 0 <= q < |ids|
                                && ids[p] == Visible(ids, table)[i] && ids[q] == Visible(ids, table)[j] :: p < q
  {
    if ids != [] {
      var rest := ids[1..];
      VisibleInRankOrder(rest, table);
      VisibleIsSubsequence(rest, table);
      assert forall p | 0 < p < |ids| :: ids[p] == rest[p - 1];
    }
  }

  /**
   Ranked hydration returns exactly the ranked ids that are still approved, in
   rank order, each with its row; without duplicates if the ranking has none;
   and whatever order the second query returns the rows in.
   */
  lemma HydrationRestoresRank(ids: seq<Id>, rows: seq<Row>, table: map<Id, Row>)
    requires TableOk(table) && Answers(rows, (set id | id in ids), table)
    ensures var result, visible := Hydrate(ids, rows), Visible(ids, table);
            && |result| == |visible|
            && (forall i | 0 <= i < |result| ::
                visible[i] in table && result[i] == table[visible[i]] && result[i].id == visible[i])
            && (forall id :: id in visible <==> id in ids && id in table && table[id].approved)
            && ((forall i, j | 0 <= i < j < |ids| :: ids[i] != ids[j]) ==>
                  forall i, j | 0 <= i < j < |result| :: result[i].id != result[j].id)
            && ((forall i, j | 0 <= i < j < |ids| :: ids[i] != ids[j]) ==>
                  forall i, j, p, q | 0 <= i < j < |result| && 0 <= p < |ids| && 0 <= q < |ids|
                                      && ids[p] == result[i].id && ids[q] == result[j].id :: p < q)
  {
    if forall i, j | 0 <= i < j < |ids| :: ids[i] != ids[j] {
      VisibleInRankOrder(ids, table);
    }
    ByIdMembers(rows);
    forall id | id in ids ensures id in ById(rows) <==> id in table && table[id].approved {
      if id in table && table[id].approved {
        assert table[id] in rows;
      }
    }
    PickVisible(ids, ById(rows), table);
    VisibleIsSubsequence(ids, table);
  }

  // ---------------------------------------------------- saved and liked items

  /** What a buyer engaged with: a table and an id in it. */
  datatype Engagement = Engagement(target: Table, id: Id)

  type Database = Table -> map<Id, Row>

  ghost predicate DatabaseOk(db: Database) {
    forall t, id | id in db(t) :: db(t)[id].id == id && db(t)[id].source == t
  }

  function IdsOf(es: seq<Engagement>, target: Table): set<Id> {
    set e | e in es && e.target == target :: e.id
  }

  predicate IsVisible(e: Engagement, db: Database) {
    e.id in db(e.target) && db(e.target)[e.id].approved
  }

  function EngagedIds(es: seq<Engagement>): seq<Id> {
    seq(|es|, i requires 0 <= i < |es| => es[i].id)
  }

  /** One map over the rows of all three tables, read by id alone. */
  function HydrateEngaged(es: seq<Engagement>, rows: seq<Row>): seq<Row> {
    Hydrate(EngagedIds(es), rows)
  }

  /** The engaged items still visible, in engagement order, each from the table it was engaged in. */
  function VisibleEngaged(es: seq<Engagement>, db: Database): seq<Row> {
    if es == [] then []
    else if IsVisible(es[0], db) then [db(es[0].target)[es[0].id]] + VisibleEngaged(es[1..], db)
    else VisibleEngaged(es[1..], db)
  }

  /** The three queries behind the page. */
  ghost predicate AnswersAll(a: seq<Row>, b: seq<Row>, c: seq<Row>, es: seq<Engagement>, db: Database) {
    && Answers(a, IdsOf(es, Listings), db(Listings))
    && Answers(b, IdsOf(es, Properties), db(Properties))
    && Answers(c, IdsOf(es, Posts), db(Posts))
  }

  /** A visible item whose id the buyer also engaged with in another table. */
  ghost predicate Confused(es: seq<Engagement>, db: Database) {
    exists e, f :: e in es && f in es && e.id == f.id && e.target != f.target && IsVisible(e, db)
  }

  /** What the map finds for an id: some engaged, visible row, and one whenever there is one. */
  ghost predicate MapOk(byId: map<Id, Row>, es: seq<Engagement>, db: Database) {
    && (forall e | e in es && IsVisible(e, db) :: e.id in byId)
    && (forall id | id in byId :: byId[id].id == id &&
          exists e :: e in es && e.id == id && IsVisible(e, db) && byId[id] == db(e.target)[id])
  }

  lemma {:induction false} ByIdFinds(rows: seq<Row>)
    ensures forall r | r in rows :: r.id in ById(rows)
    ensures forall id | id in ById(rows) :: ById(rows)[id] in rows && ById(rows)[id].id == id
  {
    if rows != [] {
      ByIdFinds(rows[..|rows| - 1]);
      assert rows == rows[..|rows| - 1] + [rows[|rows| - 1]];
    }
  }

  lemma RowsAreEngaged(a: seq<Row>, es: seq<Engagement>, t: Table, db: Database)
    requires DatabaseOk(db) && Answers(a, IdsOf(es, t), db(t))
    ensures forall r | r in a :: exists e :: e in es && e.id == r.id && IsVisible(e, db) && r == db(e.target)[r.id]
    ensures forall e | e in es && e.target == t && IsVisible(e, db) :: db(t)[e.id] in a
  {
    forall r | r in a ensures exists e :: e in es && e.id == r.id && IsVisible(e, db) && r == db(e.target)[r.id] {
      var e :| e in es && e.target == t && e.id == r.id;
    }
    forall e | e in es && e.target == t && IsVisible(e, db) ensures db(t)[e.id] in a {
      assert e.id in IdsOf(es, t);
    }
  }

  lemma EngagedMapOk(a: seq<Row>, b: seq<Row>, c: seq<Row>, es: seq<Engagement>, db: Database)
    requires DatabaseOk(db) && AnswersAll(a, b, c, es, db)
    ensures MapOk(ById(a + b + c), es, db)
  {
    RowsAreEngaged(a, es, Listings, db);
    RowsAreEngaged(b, es, Properties, db);
    RowsAreEngaged(c, es, Posts, db);
    ByIdFinds(a + b + c);
    forall e | e in es && IsVisible(e, db) ensures e.id in ById(a + b + c) {
      var r := db(e.target)[e.id];
      assert r in a + b + c;
    }
  }

  lemma {:induction false} PickEngaged(es: seq<Engagement>, ids: seq<Id>, byId: map<Id, Row>, db: Database)
    requires |ids| == |es| && forall i | 0 <= i < |es| :: ids[i] == es[i].id
    requires forall e | e in es ::
               (e.id in byId <==> IsVisible(e, db)) && (e.id in byId ==> byId[e.id] == db(e.target)[e.id])
    ensures Pick(ids, byId) == VisibleEngaged(es, db)
  {
    if es != [] {
      assert es[0] in es;
      PickEngaged(es[1..], ids[1..], byId, db);
    }
  }

  /** The pass returns a row for every id in the map, so at least the visible ones. */
  lemma {:induction false} PickIsLonger(es: seq<Engagement>, ids: seq<Id>, byId: map<Id, Row>, db: Database)
    requires |ids| == |es| && forall i | 0 <= i < |es| :: ids[i] == es[i].id
    requires forall e | e in es && IsVisible(e, db) :: e.id in byId
    ensures |Pick(ids, byId)| >= |VisibleEngaged(es, db)|
    ensures (exists f :: f in es && f.id in byId && !IsVisible(f, db)) ==> |Pick(ids, byId)| > |VisibleEngaged(es, db)|
  {
    if es != [] {
      assert es[0] in es;
      PickIsLonger(es[1..], ids[1..], byId, db);
      assert es == [es[0]] + es[1..];
    }
  }

  lemma {:induction false} PickHasOneRowPerId(ids: seq<Id>, byId: map<Id, Row>)
    requires forall id | id in byId :: byId[id].id == id
    ensures forall r | r in Pick(ids, byId) :: r.id in byId && r == byId[r.id]
  {
    if ids != [] {
      PickHasOneRowPerId(ids[1..], byId);
    }
  }

  lemma {:induction false} VisibleEngagedMembers(es: seq<Engagement>, db: Database)
    ensures forall e | e in es && IsVisible(e, db) :: db(e.target)[e.id] in VisibleEngaged(es, db)
  {
    if es != [] {
      VisibleEngagedMembers(es[1..], db);
      assert es == [es[0]] + es[1..];
    }
  }

  lemma ConfusedGoesWrong(es: seq<Engagement>, ids: seq<Id>, byId: map<Id, Row>, db: Database)
    requires Confused(es, db) && DatabaseOk(db)
    requires |ids| == |es| && forall i | 0 <= i < |es| :: ids[i] == es[i].id
    requires forall id | id in byId :: byId[id].id == id
    requires forall e | e in es && IsVisible(e, db) :: e.id in byId
    ensures Pick(ids, byId) != VisibleEngaged(es, db)
  {
    var e, f :| e in es && f in es && e.id == f.id && e.target != f.target && IsVisible(e, db);
    if IsVisible(f, db) {
      PickHasOneRowPerId(ids, byId);
      VisibleEngagedMembers(es, db);
      assert db(e.target)[e.id] != db(f.target)[f.id];
    } else {
      PickIsLonger(es, ids, byId, db);
    }
  }

  /**
   The page shows exactly the engaged items that are still visible, in
   engagement order, if and only if no visible item shares its id with an
   engagement in another table: the map is keyed by id alone.
   */
  lemma EngagedKeepOrderExactly(es: seq<Engagement>, a: seq<Row>, b: seq<Row>, c: seq<Row>, db: Database)
    requires DatabaseOk(db) && AnswersAll(a, b, c, es, db)
    ensures HydrateEngaged(es, a + b + c) == VisibleEngaged(es, db) <==> !Confused(es, db)
  {
    var byId, ids := ById(a + b + c), EngagedIds(es);
    EngagedMapOk(a, b, c, es, db);
    if Confused(es, db) {
      ConfusedGoesWrong(es, ids, byId, db);
    } else {
      PickEngaged(es, ids, byId, db);
    }
  }

  /**
   Each table generates its own ids, so a confused page needs rows that were
   given theirs otherwise, one id in two tables. Then a liked post that was
   taken down shows up as the listing of the same id.
   */
  lemma SharedIdConfuses(es: seq<Engagement>, db: Database, listing: Row)
    requires listing == Row("7", true, Listings)
    requires es == [Engagement(Posts, "7"), Engagement(Listings, "7")]
    requires db == ((t: Table) => if t == Listings then map["7" := listing]
                                  else if t == Posts then map["7" := Row("7", false, Posts)] else map[])
    ensures DatabaseOk(db) && Confused(es, db) && AnswersAll([listing], [], [], es, db)
    ensures HydrateEngaged(es, [listing] + [] + []) == [listing, listing]
    ensures VisibleEngaged(es, db) == [listing]
  {
    assert es[0] in es && es[1] in es && IsVisible(es[1], db);
    assert !IsVisible(es[0], db) && db(Listings)["7"] == listing;
    var tail := es[1..];
    assert tail == [Engagement(Listings, "7")] && tail[1..] == [];
    assert VisibleEngaged(tail, db) == [listing] + VisibleEngaged(tail[1..], db);
    var rows := [listing] + [] + [];
    assert rows == [listing] && rows[..0] == [];
    assert ById(rows) == map["7" := listing];
    var ids := EngagedIds(es);
    assert ids == ["7", "7"] && ids[1..] == ["7"] && ids[1..][1..] == [];
    assert Pick(ids[1..], ById(rows)) == [listing] + Pick(ids[1..][1..], ById(rows));
  }
}

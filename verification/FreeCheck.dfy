/**
 The free case check: a query answered from the cache or, on a miss, from the
 listings. Requests run one after the other; a check starts at `at` and stores
 its answer at `done`. Case folding is modelled on ASCII letters.
 */
module FreeCheck {
  import opened Prelude
  import opened TtlCaching

  const FREE_CHECK_CACHE_TTL_MS := 60000
  const FREE_CHECK_CACHE_MAX_ENTRIES: nat := 5000

  // -------------------------------------------------------------------- strings

  /** What `trim` strips: white space and line terminators. */
  predicate IsSpace(c: char) {
    || '\U{9}' <= c <= '\U{D}' || c == ' ' || c == '\U{A0}' || c == '\U{FEFF}' || c == '\U{1680}'
    || '\U{2000}' <= c <= '\U{200A}' || c == '\U{2028}' || c == '\U{2029}' || c == '\U{202F}'
    || c == '\U{205F}' || c == '\U{3000}'
  }

  function Lower(s: string): (t: string)
    ensures |t| == |s|
  {
    seq(|s|, i requires 0 <= i < |s| => LowerAscii(s[i]))
  }

  function TrimStart(s: string): (t: string)
    ensures |t| <= |s| && (|t| == |s| ==> t == s)
  {
    if s != [] && IsSpace(s[0]) then TrimStart(s[1..]) else s
  }

  function TrimEnd(s: string): (t: string)
    ensures |t| <= |s| && (|t| == |s| ==> t == s)
  {
    if s != [] && IsSpace(s[|s| - 1]) then TrimEnd(s[..|s| - 1]) else s
  }

  function Trim(s: string): (t: string)
    ensures |t| <= |s| && (|t| == |s| ==> t == s)
  {
    TrimEnd(TrimStart(s))
  }

  /** All that is cut off is white space, and none is left at either end. */
  lemma {:induction false} TrimCutsSpaces(s: string) returns (i: nat, j: nat)
    ensures i <= j <= |s| && Trim(s) == s[i..j]
    ensures forall k | 0 <= k < i || j <= k < |s| :: IsSpace(s[k])
    ensures i < j ==> !IsSpace(s[i]) && !IsSpace(s[j - 1])
  {
    i := StartCutsSpaces(s);
    j := EndCutsSpaces(s[i..]);
    assert s[i..][..j] == s[i..i + j];
    assert forall k | i + j <= k < |s| :: s[k] == s[i..][k - i];
    j := i + j;
  }

  lemma {:induction false} StartCutsSpaces(s: string) returns (i: nat)
    ensures i <= |s| && TrimStart(s) == s[i..]
    ensures forall k | 0 <= k < i :: IsSpace(s[k])
    ensures i < |s| ==> !IsSpace(s[i])
  {
    i := 0;
    if s != [] && IsSpace(s[0]) {
      i := StartCutsSpaces(s[1..]);
      assert forall k | 0 < k <= i :: s[k] == s[1..][k - 1];
      i := i + 1;
    }
  }

  lemma {:induction false} EndCutsSpaces(s: string) returns (j: nat)
    ensures j <= |s| && TrimEnd(s) == s[..j]
    ensures forall k | j <= k < |s| :: IsSpace(s[k])
    ensures j > 0 ==> !IsSpace(s[j - 1])
  {
    j := |s|;
    if s != [] && IsSpace(s[|s| - 1]) {
      j := EndCutsSpaces(s[..|s| - 1]);
    }
  }

  /** Case-insensitive substring match. */
  predicate Contains(field: string, text: string) {
    exists i | 0 <= i <= |field| :: ContainsAt(field, text, i)
  }

  predicate ContainsAt(field: string, text: string, i: nat) {
    i + |text| <= |field| && Lower(field)[i..i + |text|] == Lower(text)
  }

  // -------------------------------------------------------------------- queries

  datatype Query = Query(address: Option<string>, khasra: Option<string>, survey: Option<string>)
  datatype Kind = ByAddress | ByKhasra | BySurvey

  datatype Listing = Listing(id: nat, approved: bool, address: string, khasra: Option<string>, survey: Option<string>)

  predicate Given(field: Option<string>) {
    field.Some? && field.value != ""
  }

  predicate Answerable(q: Query) {
    Given(q.address) || Given(q.khasra) || Given(q.survey)
  }

  /** The first field given decides. */
  function KindOf(q: Query): Kind {
    if Given(q.address) then ByAddress else if Given(q.khasra) then ByKhasra else BySurvey
  }

  function TextOf(q: Query): string
    requires Answerable(q)
  {
    match KindOf(q)
    case ByAddress => q.address.value
    case ByKhasra => q.khasra.value
    case BySurvey => q.survey.value
  }

  function Prefix(kind: Kind): string {
    match kind
    case ByAddress => "address:"
    case ByKhasra => "khasra:"
    case BySurvey => "survey:"
  }

  function CacheKey(q: Query): string
    requires Answerable(q)
  {
    Prefix(KindOf(q)) + Lower(Trim(TextOf(q)))
  }

  predicate Matches(l: Listing, kind: Kind, text: string) {
    l.approved &&
    match kind
    case ByAddress => Contains(l.address, text)
    case ByKhasra => l.khasra.Some? && Contains(l.khasra.value, text)
    case BySurvey => l.survey.Some? && Contains(l.survey.value, text)
  }

  /** The database's answer: the first matching listing, or none. The text is not trimmed. */
  function Lookup(db: seq<Listing>, kind: Kind, text: string): Option<Listing> {
    if db == [] then None
    else if Matches(db[0], kind, text) then Some(db[0])
    else Lookup(db[1..], kind, text)
  }

  lemma {:induction false} LookupUpToCase(db: seq<Listing>, kind: Kind, a: string, b: string)
    requires Lower(a) == Lower(b)
    ensures Lookup(db, kind, a) == Lookup(db, kind, b)
  {
    if db != [] {
      assert forall field, i: nat :: ContainsAt(field, a, i) == ContainsAt(field, b, i);
      LookupUpToCase(db[1..], kind, a, b);
    }
  }

  predicate SameAnswer(db: seq<Listing>, kind: Kind, a: string, b: string) {
    Lookup(db, kind, a) == Lookup(db, kind, b)
  }

  /** Equal keys mean the same kind of query, and the same text up to case once trimmed. */
  lemma CacheKeyDetermines(p: Query, q: Query)
    requires Answerable(p) && Answerable(q)
    ensures CacheKey(p) == CacheKey(q) <==>
            KindOf(p) == KindOf(q) && Lower(Trim(TextOf(p))) == Lower(Trim(TextOf(q)))
  {
    var a, b := Prefix(KindOf(p)), Prefix(KindOf(q));
    assert CacheKey(p)[..|a|] == a && CacheKey(p)[|a|..] == Lower(Trim(TextOf(p)));
    assert CacheKey(q)[..|b|] == b && CacheKey(q)[|b|..] == Lower(Trim(TextOf(q)));
    assert CacheKey(p)[0] == a[0] && CacheKey(q)[0] == b[0];
  }

  /**
   Trimming the text changes no answer of any database exactly when there is
   nothing to trim: the cache key trims, the query behind it does not.
   */
  lemma TrimmingIsHarmlessExactly(kind: Kind, text: string)
    ensures Trim(text) == text <==> forall db :: SameAnswer(db, kind, text, Trim(text))
  {
    if Trim(text) != text {
      var t := Trim(text);
      var l := Listing(0, true, t, Some(t), Some(t));
      assert ContainsAt(t, t, 0);
      assert !Contains(t, text);
      assert [l][1..] == [];
      assert Lookup([l], kind, t) == Some(l) && Lookup([l], kind, text) == None;
      assert !SameAnswer([l], kind, text, t);
    }
  }

  // ---------------------------------------------------- what an answer is, row by row

  /** The two letters are the same, up to ASCII case. */
  predicate SameLetter(a: char, b: char) {
    || a == b
    || ('A' <= a <= 'Z' && b as int == a as int + 32)
    || ('A' <= b <= 'Z' && a as int == b as int + 32)
  }

  /** The text stands at position i of the field, letter by letter. */
  predicate StandsAt(field: string, text: string, i: nat) {
    i + |text| <= |field| && forall m | 0 <= m < |text| :: SameLetter(field[i + m], text[m])
  }

  predicate HasText(field: string, text: string) {
    exists i | 0 <= i <= |field| :: StandsAt(field, text, i)
  }

  /** An approved row whose field of the query's kind has the text: the first field given decides. */
  predicate Fits(l: Listing, q: Query) {
    l.approved &&
    if q.address != None && q.address.value != "" then HasText(l.address, q.address.value)
    else if q.khasra != None && q.khasra.value != "" then l.khasra != None && HasText(l.khasra.value, q.khasra.value)
    else
      q.survey != None && q.survey.value != "" && l.survey != None && HasText(l.survey.value, q.survey.value)
  }

  /** The answer is the first row that fits, and none only if none fits. */
  ghost predicate IsAnswer(db: seq<Listing>, q: Query, found: Option<Listing>) {
    match found
    case None => forall l | l in db :: !Fits(l, q)
    case Some(l) => exists j :: 0 <= j < |db| && db[j] == l && Fits(l, q) && forall k | 0 <= k < j :: !Fits(db[k], q)
  }

  lemma ContainsExactly(field: string, text: string, i: nat)
    ensures ContainsAt(field, text, i) <==> StandsAt(field, text, i)
  {
    if i + |text| <= |field| {
      var part := Lower(field)[i..i + |text|];
      assert forall m | 0 <= m < |text| :: part[m] == LowerAscii(field[i + m]) && Lower(text)[m] == LowerAscii(text[m]);
      assert forall m | 0 <= m < |text| :: part[m] == Lower(text)[m] <==> SameLetter(field[i + m], text[m]);
    }
  }

  lemma HasExactly(field: string, text: string)
    ensures Contains(field, text) <==> HasText(field, text)
  {
    forall i: nat {
      ContainsExactly(field, text, i);
    }
  }

  lemma FitsExactly(l: Listing, q: Query)
    requires Answerable(q)
    ensures Fits(l, q) <==> Matches(l, KindOf(q), TextOf(q))
  {
    HasExactly(l.address, TextOf(q));
    HasExactly(l.khasra.GetOr(""), TextOf(q));
    HasExactly(l.survey.GetOr(""), TextOf(q));
  }

  lemma {:induction false} LookupAnswers(db: seq<Listing>, q: Query)
    requires Answerable(q)
    ensures IsAnswer(db, q, Lookup(db, KindOf(q), TextOf(q)))
  {
    if db != [] {
      FitsExactly(db[0], q);
      LookupAnswers(db[1..], q);
      assert db == [db[0]] + db[1..];
      var found := Lookup(db, KindOf(q), TextOf(q));
      if !Fits(db[0], q) && found.Some? {
        var j :| 0 <= j < |db[1..]| && db[1..][j] == found.value && Fits(found.value, q)
          && forall k | 0 <= k < j :: !Fits(db[1..][k], q);
        assert db[j + 1] == found.value;
        forall k | 0 <= k < j + 1 ensures !Fits(db[k], q) {
          assert k > 0 ==> db[k] == db[1..][k - 1];
        }
      } else if Fits(db[0], q) {
        assert db[0] == found.value;
      }
    }
  }

  /** There is only one answer. */
  lemma AnswerIsUnique(db: seq<Listing>, q: Query, a: Option<Listing>, b: Option<Listing>)
    requires IsAnswer(db, q, a) && IsAnswer(db, q, b)
    ensures a == b
  {
  }

  // -------------------------------------------------------------------- handler

  datatype Payload = Payload(found: Option<Listing>)
  datatype Reply = Missing | Answered(payload: Payload, cacheHit: bool)

  /** One request: its query, the database it sees, and when it starts and stores. */
  datatype Check = Check(q: Query, db: seq<Listing>, at: int, done: int)

  function FromDb(c: Check): Payload
    requires Answerable(c.q)
  {
    Payload(Lookup(c.db, KindOf(c.q), TextOf(c.q)))
  }

  type Store = seq<Slot<Payload>>

  /** The reply to a check against a cache store, and the store afterwards. */
  function Respond(store: Store, c: Check): (Reply, Store) {
    if !Answerable(c.q) then (Missing, store)
    else
      var cached, kept := GetValue(store, CacheKey(c.q), c.at), GetStore(store, CacheKey(c.q), c.at);
      if cached.Some? then (Answered(cached.value, true), kept)
      else
        (Answered(FromDb(c), false),
         SetStore(kept, CacheKey(c.q), FromDb(c), c.done, FREE_CHECK_CACHE_TTL_MS, FREE_CHECK_CACHE_MAX_ENTRIES))
  }

  method FreeCaseCheck(cache: TtlCache<Payload>, c: Check) returns (reply: Reply)
    requires cache.Valid() && cache.ttlMs == FREE_CHECK_CACHE_TTL_MS && cache.maxEntries == FREE_CHECK_CACHE_MAX_ENTRIES
    modifies cache
    ensures cache.Valid() && (reply, cache.store) == Respond(old(cache.store), c)
    ensures reply == Missing <==>
              && (c.q.address == None || c.q.address.value == "")
              && (c.q.khasra == None || c.q.khasra.value == "") && (c.q.survey == None || c.q.survey.value == "")
    ensures reply == Missing ==> cache.store == old(cache.store)
    ensures reply.Answered? && !reply.cacheHit ==>
              && IsAnswer(c.db, c.q, reply.payload.found)
              && Slot(CacheKey(c.q), reply.payload, c.done + 60000) in cache.store
  {
    RespondAnswers(cache.store, c);
    if !Answerable(c.q) {
      return Missing;
    }
    var cacheKey := CacheKey(c.q);
    var cached := cache.Get(cacheKey, c.at);
    if cached.Some? {
      return Answered(cached.value, true);
    }
    var payload := FromDb(c);
    cache.Set(cacheKey, payload, c.done);
    return Answered(payload, false);
  }

  /** A check is refused only for want of any field; on a miss its answer is the database's, and is stored. */
  lemma RespondAnswers(store: Store, c: Check)
    ensures var (reply, after) := Respond(store, c);
            && (reply == Missing <==>
                  && (c.q.address == None || c.q.address.value == "")
                  && (c.q.khasra == None || c.q.khasra.value == "")
                  && (c.q.survey == None || c.q.survey.value == ""))
            && (reply == Missing ==> after == store)
            && (reply.Answered? && !reply.cacheHit ==>
                  && IsAnswer(c.db, c.q, reply.payload.found)
                  && Slot(CacheKey(c.q), reply.payload, c.done + 60000) in after)
  {
    if Answerable(c.q) {
      LookupAnswers(c.db, c.q);
      SlotIsStored(GetStore(store, CacheKey(c.q), c.at), CacheKey(c.q), FromDb(c), c.done);
    }
  }

  lemma SlotIsStored(store: Store, key: string, payload: Payload, now: int)
    ensures Slot(key, payload, now + 60000)
            in SetStore(store, key, payload, now, FREE_CHECK_CACHE_TTL_MS, FREE_CHECK_CACHE_MAX_ENTRIES)
  {
    var kept := Evicted(store, key, FREE_CHECK_CACHE_MAX_ENTRIES);
    var after := SetStore(store, key, payload, now, FREE_CHECK_CACHE_TTL_MS, FREE_CHECK_CACHE_MAX_ENTRIES);
    assert after[Position(kept, key)] == Slot(key, payload, now + 60000);
  }

  /** The cache after a run of checks. */
  function StoreAfter(cs: seq<Check>): Store {
    if cs == [] then [] else Respond(StoreAfter(cs[..|cs| - 1]), cs[|cs| - 1]).1
  }

  /** A slot holds what the database answered to check i of the run. */
  predicate From(slot: Slot<Payload>, cs: seq<Check>, i: nat) {
    i < |cs| && Answerable(cs[i].q) && slot.key == CacheKey(cs[i].q) && slot.value == FromDb(cs[i])
    && slot.expiresAt == cs[i].done + FREE_CHECK_CACHE_TTL_MS
  }

  lemma {:induction false} SlotsComeFromChecks(cs: seq<Check>)
    ensures forall s | s in StoreAfter(cs) :: exists i: nat :: From(s, cs, i)
  {
    if cs != [] {
      var earlier, before, after := cs[..|cs| - 1], StoreAfter(cs[..|cs| - 1]), StoreAfter(cs);
      SlotsComeFromChecks(earlier);
      forall s | s in after ensures exists i: nat :: From(s, cs, i) {
        if s in before {
          var i: nat :| From(s, earlier, i);
          assert From(s, cs, i);
        } else {
          NewSlotIsTheAnswer(before, cs[|cs| - 1], s);
          assert From(s, cs, |cs| - 1);
        }
      }
    }
  }

  lemma NewSlotIsTheAnswer(before: Store, c: Check, s: Slot<Payload>)
    requires s in Respond(before, c).1 && s !in before
    ensures Answerable(c.q) && s == Slot(CacheKey(c.q), FromDb(c), c.done + FREE_CHECK_CACHE_TTL_MS)
  {
    if Answerable(c.q) {
      var kept := GetStore(before, CacheKey(c.q), c.at);
      assert forall x | x in kept :: x in before;
      assert forall x | x in Evicted(kept, CacheKey(c.q), FREE_CHECK_CACHE_MAX_ENTRIES) :: x in kept;
    }
  }

  /**
   A cached answer is what the database answered less than 60 seconds ago to a
   query with the same key; and if neither query has surrounding whitespace, it
   is what the database would have answered then to this very query.
   */
  lemma HitIsRecentAnswer(cs: seq<Check>, c: Check)
    requires Answerable(c.q)
    ensures var reply := Respond(StoreAfter(cs), c).0;
            reply.cacheHit ==> exists i: nat :: IsRecentAnswer(cs, c, reply.payload, i)
  {
    SlotsComeFromChecks(cs);
    var store := StoreAfter(cs);
    var p := Position(store, CacheKey(c.q));
    if p < |store| && store[p].expiresAt > c.at {
      assert store[p] in store;
      var i: nat :| From(store[p], cs, i);
      CacheKeyDetermines(cs[i].q, c.q);
      LookupAnswers(cs[i].db, cs[i].q);
      LookupAnswers(cs[i].db, c.q);
      if Trim(TextOf(cs[i].q)) == TextOf(cs[i].q) && Trim(TextOf(c.q)) == TextOf(c.q) {
        LookupUpToCase(cs[i].db, KindOf(c.q), TextOf(cs[i].q), TextOf(c.q));
      }
      assert IsRecentAnswer(cs, c, store[p].value, i);
    }
  }

  ghost predicate IsRecentAnswer(cs: seq<Check>, c: Check, payload: Payload, i: nat)
    requires Answerable(c.q)
  {
    && i < |cs| && Answerable(cs[i].q) && CacheKey(cs[i].q) == CacheKey(c.q) && KindOf(cs[i].q) == KindOf(c.q)
    && payload == FromDb(cs[i]) && IsAnswer(cs[i].db, cs[i].q, payload.found)
    && c.at - cs[i].done < 60000
    && (Trim(TextOf(cs[i].q)) == TextOf(cs[i].q) && Trim(TextOf(c.q)) == TextOf(c.q) ==>
          IsAnswer(cs[i].db, c.q, payload.found))
  }

  // ------------------------------------------------- the handler keeps the order

  /** The cache events of a run: a get per check, and a set after each miss. */
  function Events(cs: seq<Check>): seq<Event<Payload>> {
    if cs == [] then []
    else
      var earlier, c := cs[..|cs| - 1], cs[|cs| - 1];
      if !Answerable(c.q) then Events(earlier)
      else if GetValue(StoreAfter(earlier), CacheKey(c.q), c.at).Some? then Events(earlier) + [Got(CacheKey(c.q), c.at)]
      else Events(earlier) + [Got(CacheKey(c.q), c.at)] + [Put(CacheKey(c.q), FromDb(c), c.done)]
  }

  /**
   Checks served one after the other set a key only when a get has just missed
   it, so every result about such histories applies to the free check's cache.
   */
  lemma {:induction false} ChecksSetOnlyAfterMisses(cs: seq<Check>)
    ensures Replay(Events(cs), FREE_CHECK_CACHE_TTL_MS, FREE_CHECK_CACHE_MAX_ENTRIES) == StoreAfter(cs)
    ensures SetsFollowMisses(Events(cs), FREE_CHECK_CACHE_TTL_MS, FREE_CHECK_CACHE_MAX_ENTRIES)
  {
    if cs != [] {
      var earlier, c := cs[..|cs| - 1], cs[|cs| - 1];
      ChecksSetOnlyAfterMisses(earlier);
      if Answerable(c.q) {
        var h, got, put := Events(earlier), Got(CacheKey(c.q), c.at), Put(CacheKey(c.q), FromDb(c), c.done);
        ReplaySnoc(h, got, FREE_CHECK_CACHE_TTL_MS, FREE_CHECK_CACHE_MAX_ENTRIES);
        if GetValue(StoreAfter(earlier), CacheKey(c.q), c.at).None? {
          ReplayInv(h, FREE_CHECK_CACHE_TTL_MS, FREE_CHECK_CACHE_MAX_ENTRIES);
          MissLeavesKeyAbsent(StoreAfter(earlier), CacheKey(c.q), c.at);
          ReplaySnoc(h + [got], put, FREE_CHECK_CACHE_TTL_MS, FREE_CHECK_CACHE_MAX_ENTRIES);
        }
      }
    }
  }

  // --------------------------------------------------- the cache does its job

  /** The check is answered by the database and its answer stored. */
  predicate Stores(cs: seq<Check>, j: nat) {
    j < |cs| && Answerable(cs[j].q) && GetValue(StoreAfter(cs[..j]), CacheKey(cs[j].q), cs[j].at).None?
  }

  /** Checks run one after the other by a clock that never goes back. */
  ghost predicate InOrder(cs: seq<Check>) {
    (forall i | 0 <= i < |cs| :: cs[i].at <= cs[i].done) && forall i, j | 0 <= i < j < |cs| :: cs[i].done <= cs[j].at
  }

  /** A history with nothing later than `now`. */
  ghost predicate Until(h: seq<Event<Payload>>, now: int) {
    ClockMonotone(h) && forall i | 0 <= i < |h| :: h[i].at <= now
  }

  lemma ClockGoesOn(h: seq<Event<Payload>>, e: Event<Payload>, now: int)
    requires Until(h, now) && now <= e.at
    ensures Until(h + [e], e.at)
  {
  }

  lemma {:induction false} EventsInOrder(cs: seq<Check>)
    requires InOrder(cs)
    ensures ClockMonotone(Events(cs))
    ensures if cs == [] then Events(cs) == [] else Until(Events(cs), cs[|cs| - 1].done)
  {
    if cs != [] {
      var earlier, c := cs[..|cs| - 1], cs[|cs| - 1];
      EventsInOrder(earlier);
      assert Until(Events(earlier), c.at);
      if Answerable(c.q) {
        var h, got, put := Events(earlier), Got(CacheKey(c.q), c.at), Put(CacheKey(c.q), FromDb(c), c.done);
        ClockGoesOn(h, got, c.at);
        ClockGoesOn(h + [got], put, c.at);
      }
    }
  }

  /** The keys other than `key` that checks after the i-th stored. */
  function StoredSince(cs: seq<Check>, i: nat, key: string): set<string> {
    if |cs| <= i + 1 then {}
    else
      var c := cs[|cs| - 1];
      StoredSince(cs[..|cs| - 1], i, key) +
      if Stores(cs, |cs| - 1) && CacheKey(c.q) != key then {CacheKey(c.q)} else {}
  }

  /** What the events of a run say about a key that check i stored. */
  ghost predicate StoredAt(cs: seq<Check>, i: nat, key: string) {
    && i < |cs|
    && LastPut(Events(cs), key).Some? && LastPut(Events(cs), key).value.1 >= cs[i].done
    && OthersSince(Events(cs), key) <= StoredSince(cs, i, key)
  }

  lemma StoringPuts(cs: seq<Check>, i: nat)
    requires Stores(cs, i) && i + 1 == |cs|
    ensures StoredAt(cs, i, CacheKey(cs[i].q))
  {
    var h, key := Events(cs[..i]), CacheKey(cs[i].q);
    OneMoreEvent(h + [Got(key, cs[i].at)], Put(key, FromDb(cs[i]), cs[i].done), key);
  }

  /** What one more event does to the last value of a key, and to the keys set since. */
  lemma OneMoreEvent(h: seq<Event<Payload>>, e: Event<Payload>, key: string)
    ensures LastPut(h + [e], key) == if e.Put? && e.key == key then Some((e.value, e.at)) else LastPut(h, key)
    ensures OthersSince(h + [e], key) ==
              if e.Put? && e.key == key then {} else OthersSince(h, key) + if e.Put? then {e.key} else {}
  {
    assert (h + [e])[..|h|] == h;
  }

  lemma LaterCheckKeepsStored(cs: seq<Check>, i: nat, key: string)
    requires InOrder(cs) && i + 1 < |cs| && StoredAt(cs[..|cs| - 1], i, key)
    ensures StoredAt(cs, i, key)
  {
    var earlier, c := cs[..|cs| - 1], cs[|cs| - 1];
    assert cs[i].done <= c.at;
    if Answerable(c.q) {
      var h, got, put := Events(earlier), Got(CacheKey(c.q), c.at), Put(CacheKey(c.q), FromDb(c), c.done);
      OneMoreEvent(h, got, key);
      OneMoreEvent(h + [got], put, key);
    }
  }

  lemma {:induction false} StoredStays(cs: seq<Check>, i: nat)
    requires InOrder(cs) && Stores(cs, i)
    ensures StoredAt(cs, i, CacheKey(cs[i].q))
    decreases |cs|
  {
    if i + 1 == |cs| {
      StoringPuts(cs, i);
    } else {
      assert cs[..|cs| - 1][..i] == cs[..i];
      StoredStays(cs[..|cs| - 1], i);
      LaterCheckKeepsStored(cs, i, CacheKey(cs[i].q));
    }
  }

  /**
   A check repeated less than 60 seconds after its answer was stored is answered
   from the cache, unless 5000 other keys have been stored since.
   */
  lemma RepeatedCheckIsHit(cs: seq<Check>, i: nat, c: Check)
    requires InOrder(cs + [c]) && Stores(cs, i) && Answerable(c.q) && CacheKey(c.q) == CacheKey(cs[i].q)
    requires c.at - cs[i].done < 60000
    ensures Respond(StoreAfter(cs), c).0.cacheHit || |StoredSince(cs, i, CacheKey(c.q))| >= 5000
  {
    var key, h := CacheKey(c.q), Events(cs);
    assert forall j | 0 <= j < |cs| :: (cs + [c])[j] == cs[j];
    assert (cs + [c])[|cs|] == c;
    assert InOrder(cs);
    EventsInOrder(cs);
    ChecksSetOnlyAfterMisses(cs);
    StoredStays(cs, i);
    assert h[|h| - 1] in h;
    MissedOnlyUnderPressure(h, key, c.at, FREE_CHECK_CACHE_TTL_MS, FREE_CHECK_CACHE_MAX_ENTRIES);
    if |OthersSince(h, key)| >= FREE_CHECK_CACHE_MAX_ENTRIES {
      SubsetCard(OthersSince(h, key), StoredSince(cs, i, key));
    }
  }

  /** The free check's cache stays in expiry order, so what it evicts is closest to expiry. */
  lemma CacheStaysInExpiryOrder(cs: seq<Check>)
    requires InOrder(cs)
    ensures var store := StoreAfter(cs);
            ByExpiry(store) && |store| <= 5000
  {
    EventsInOrder(cs);
    ChecksSetOnlyAfterMisses(cs);
    EvictsClosestToExpiry(Events(cs), "", FREE_CHECK_CACHE_TTL_MS, FREE_CHECK_CACHE_MAX_ENTRIES);
    ReplayInv(Events(cs), FREE_CHECK_CACHE_TTL_MS, FREE_CHECK_CACHE_MAX_ENTRIES);
  }

  lemma MissLeavesKeyAbsent(store: Store, key: string, now: int)
    requires Distinct(store) && GetValue(store, key, now).None?
    ensures !Has(GetStore(store, key, now), key)
  {
  }
}

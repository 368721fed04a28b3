/**
 The in-memory cache: a map in insertion order with expiry, bounded by evicting
 the entry inserted first. Setting a key that is present replaces its entry where
 it stands and does not move it in the order.
 */
module TtlCaching {
  import opened Prelude

  datatype Slot<V> = Slot(key: string, value: V, expiresAt: int)

  // ------------------------------------------------------------ specification

  predicate Has<V>(store: seq<Slot<V>>, key: string) {
    exists i | 0 <= i < |store| :: store[i].key == key
  }

  /** Where a key stands in the insertion order. */
  function Position<V>(store: seq<Slot<V>>, key: string): (i: nat)
    ensures i <= |store|
    ensures i < |store| ==> store[i].key == key
    ensures forall j | 0 <= j < i :: store[j].key != key
  {
    if store == [] || store[0].key == key then 0 else 1 + Position(store[1..], key)
  }

  ghost predicate Distinct<V>(store: seq<Slot<V>>) {
    forall i, j | 0 <= i < j < |store| :: store[i].key != store[j].key
  }

  function Without<V>(store: seq<Slot<V>>, i: nat): seq<Slot<V>>
    requires i < |store|
  {
    store[..i] + store[i + 1..]
  }

  function GetStore<V>(store: seq<Slot<V>>, key: string, now: int): seq<Slot<V>> {
    var i := Position(store, key);
    if i < |store| && store[i].expiresAt <= now then Without(store, i) else store
  }

  function GetValue<V>(store: seq<Slot<V>>, key: string, now: int): Option<V> {
    var i := Position(store, key);
    if i < |store| && store[i].expiresAt > now then Some(store[i].value) else None
  }

  /** What `set` evicts first: the oldest entry, when the cache is full and the key is new. */
  function Evicted<V>(store: seq<Slot<V>>, key: string, maxEntries: nat): seq<Slot<V>> {
    if |store| >= maxEntries && Position(store, key) == |store| && store != [] then store[1..] else store
  }

  function SetStore<V>(store: seq<Slot<V>>, key: string, value: V, now: int, ttl: int, maxEntries: nat): seq<Slot<V>> {
    var kept, slot := Evicted(store, key, maxEntries), Slot(key, value, now + ttl);
    var i := Position(kept, key);
    if i < |kept| then kept[i := slot] else kept + [slot]
  }

  class TtlCache<V> {
    const ttlMs: int
    const maxEntries: nat
    var store: seq<Slot<V>>

    ghost predicate Valid()
      reads this
    {
      Distinct(store) && |store| <= if maxEntries == 0 then 1 else maxEntries
    }

    constructor (ttlMs: int, maxEntries: nat)
      ensures Valid() && store == [] && this.ttlMs == ttlMs && this.maxEntries == maxEntries
    {
      this.ttlMs, this.maxEntries, store := ttlMs, maxEntries, [];
    }

    /** An expired entry is dropped on the way. */
    method Get(key: string, now: int) returns (value: Option<V>)
      requires Valid()
      modifies this
      ensures Valid() && store == GetStore(old(store), key, now) && value == GetValue(old(store), key, now)
      ensures forall i | 0 <= i < |old(store)| && old(store)[i].key == key ::
                if old(store)[i].expiresAt <= now then value == None && store == old(store)[..i] + old(store)[i + 1..]
                else value == Some(old(store)[i].value) && store == old(store)
      ensures (forall i | 0 <= i < |old(store)| :: old(store)[i].key != key) ==> value == None && store == old(store)
    {
      var i := Position(store, key);
      if i == |store| {
        return None;
      }
      var entry := store[i];
      if entry.expiresAt <= now {
        store := store[..i] + store[i + 1..];
        return None;
      }
      return Some(entry.value);
    }

    /** The size bound holds for every maxEntries: a bound of zero still admits one entry. */
    method Set(key: string, value: V, now: int)
      requires Valid()
      modifies this
      ensures Valid() && store == SetStore(old(store), key, value, now, ttlMs, maxEntries)
      ensures forall i | 0 <= i < |old(store)| && old(store)[i].key == key ::
                store == old(store)[i := Slot(key, value, now + ttlMs)]
      ensures (forall i | 0 <= i < |old(store)| :: old(store)[i].key != key) ==>
                store == (if |old(store)| >= maxEntries && old(store) != [] then old(store)[1..] else old(store))
                         + [Slot(key, value, now + ttlMs)]
    {
      if |store| >= maxEntries && Position(store, key) == |store| {
        if store != [] {
          store := store[1..];
        }
      }
      var i := Position(store, key);
      if i < |store| {
        store := store[i := Slot(key, value, now + ttlMs)];
      } else {
        store := store + [Slot(key, value, now + ttlMs)];
      }
    }
  }

  // ------------------------------------------------------------------ histories

  datatype Event<V> = Got(key: string, at: int) | Put(key: string, value: V, at: int)

  function After<V>(store: seq<Slot<V>>, e: Event<V>, ttl: int, maxEntries: nat): seq<Slot<V>> {
    match e
    case Got(key, at) => GetStore(store, key, at)
    case Put(key, value, at) => SetStore(store, key, value, at, ttl, maxEntries)
  }

  /** The cache after a history of gets and sets, starting empty. */
  function Replay<V>(h: seq<Event<V>>, ttl: int, maxEntries: nat): seq<Slot<V>> {
    if h == [] then [] else After(Replay(h[..|h| - 1], ttl, maxEntries), h[|h| - 1], ttl, maxEntries)
  }

  /** The last value set for a key in the history, and when. */
  function LastPut<V>(h: seq<Event<V>>, key: string): Option<(V, int)> {
    if h == [] then None
    else
      var e := h[|h| - 1];
      if e.Put? && e.key == key then Some((e.value, e.at)) else LastPut(h[..|h| - 1], key)
  }

  lemma StepKeepsDistinct<V>(store: seq<Slot<V>>, e: Event<V>, ttl: int, maxEntries: nat)
    requires Distinct(store) && |store| <= if maxEntries == 0 then 1 else maxEntries
    ensures var t := After(store, e, ttl, maxEntries);
            Distinct(t) && |t| <= if maxEntries == 0 then 1 else maxEntries
  {
  }

  /** Every entry is the last value set for its key, with its expiry. */
  ghost predicate EntriesAreLast<V>(store: seq<Slot<V>>, h: seq<Event<V>>, ttl: int) {
    forall i | 0 <= i < |store| :: LastPut(h, store[i].key) == Some((store[i].value, store[i].expiresAt - ttl))
  }

  lemma {:induction false} ReplayInv<V>(h: seq<Event<V>>, ttl: int, maxEntries: nat)
    ensures var store := Replay(h, ttl, maxEntries);
            Distinct(store) && |store| <= (if maxEntries == 0 then 1 else maxEntries) && EntriesAreLast(store, h, ttl)
  {
    if h != [] {
      var before, e := Replay(h[..|h| - 1], ttl, maxEntries), h[|h| - 1];
      ReplayInv(h[..|h| - 1], ttl, maxEntries);
      StepKeepsDistinct(before, e, ttl, maxEntries);
      StepKeepsLast(before, h, ttl, maxEntries);
    }
  }

  lemma StepKeepsLast<V>(before: seq<Slot<V>>, h: seq<Event<V>>, ttl: int, maxEntries: nat)
    requires h != [] && Distinct(before) && EntriesAreLast(before, h[..|h| - 1], ttl)
    ensures EntriesAreLast(After(before, h[|h| - 1], ttl, maxEntries), h, ttl)
  {
    var e := h[|h| - 1];
    var after := After(before, e, ttl, maxEntries);
    forall i | 0 <= i < |after|
      ensures LastPut(h, after[i].key) == Some((after[i].value, after[i].expiresAt - ttl))
    {
      if !(e.Put? && after[i].key == e.key) {
        var j := CameFrom(before, e, ttl, maxEntries, i);
        assert LastPut(h[..|h| - 1], before[j].key) == Some((before[j].value, before[j].expiresAt - ttl));
      }
    }
  }

  /** Every entry but the one just set was there before. */
  lemma CameFrom<V>(before: seq<Slot<V>>, e: Event<V>, ttl: int, maxEntries: nat, i: nat) returns (j: nat)
    requires i < |After(before, e, ttl, maxEntries)|
    requires e.Put? ==> After(before, e, ttl, maxEntries)[i].key != e.key
    ensures j < |before| && After(before, e, ttl, maxEntries)[i] == before[j]
  {
    match e
    case Got(key, at) =>
      var gone := Position(before, key);
      j := if |GetStore(before, key, at)| < |before| && i >= gone then i + 1 else i;
    case Put(key, value, at) =>
      var kept := Evicted(before, key, maxEntries);
      EvictionDropsOldest(before, key, maxEntries);
      assert SetStore(before, key, value, at, ttl, maxEntries)[i] == kept[i];
      j := i + |before| - |kept|;
  }

  /**
   Soundness over every history: get answers a value only if it is the last one
   set for that key, and was set less than ttl ago. No assumption on the clock.
   */
  lemma GetIsLastPut<V>(h: seq<Event<V>>, key: string, now: int, ttl: int, maxEntries: nat)
    ensures var got := GetValue(Replay(h, ttl, maxEntries), key, now);
            got.Some? ==> exists at :: LastPut(h, key) == Some((got.value, at)) && now - at < ttl
  {
    ReplayInv(h, ttl, maxEntries);
    var store := Replay(h, ttl, maxEntries);
    var i := Position(store, key);
    if i < |store| && store[i].expiresAt > now {
      assert LastPut(h, key) == Some((store[i].value, store[i].expiresAt - ttl));
    }
  }

  // ------------------------------------------ sets that follow a miss only

  /** A clock that never goes back. */
  ghost predicate ClockMonotone<V>(h: seq<Event<V>>) {
    forall i, j | 0 <= i < j < |h| :: h[i].at <= h[j].at
  }

  /** Every set finds its key absent, as after a get that missed. */
  ghost predicate SetsFollowMisses<V>(h: seq<Event<V>>, ttl: int, maxEntries: nat)
    decreases |h|
  {
    h == [] ||
    (SetsFollowMisses(h[..|h| - 1], ttl, maxEntries) &&
     (h[|h| - 1].Put? ==> !Has(Replay(h[..|h| - 1], ttl, maxEntries), h[|h| - 1].key)))
  }

  lemma ReplaySnoc<V>(h: seq<Event<V>>, e: Event<V>, ttl: int, maxEntries: nat)
    ensures Replay(h + [e], ttl, maxEntries) == After(Replay(h, ttl, maxEntries), e, ttl, maxEntries)
    ensures SetsFollowMisses(h + [e], ttl, maxEntries) <==>
            SetsFollowMisses(h, ttl, maxEntries) && (e.Put? ==> !Has(Replay(h, ttl, maxEntries), e.key))
  {
    assert (h + [e])[..|h|] == h;
  }

  ghost predicate ByExpiry<V>(store: seq<Slot<V>>) {
    forall i, j | 0 <= i < j < |store| :: store[i].expiresAt <= store[j].expiresAt
  }

  /** Keys other than `key` set since `key` was last set. */
  function OthersSince<V>(h: seq<Event<V>>, key: string): set<string> {
    if h == [] then {}
    else
      var e := h[|h| - 1];
      if e.Put? && e.key == key then {}
      else OthersSince(h[..|h| - 1], key) + if e.Put? then {e.key} else {}
  }

  /** Whatever stands behind a key in the order was set after it. */
  ghost predicate LaterIsNewer<V>(store: seq<Slot<V>>, h: seq<Event<V>>) {
    forall i, j | 0 <= i < j < |store| :: store[j].key in OthersSince(h, store[i].key)
  }

  /** A value once set is still there, or enough other keys were set since, or it has expired. */
  ghost predicate Accounted<V>(store: seq<Slot<V>>, h: seq<Event<V>>, ttl: int, maxEntries: nat, key: string) {
    LastPut(h, key).Some? ==>
      Has(store, key) || |OthersSince(h, key)| >= maxEntries || h[|h| - 1].at - LastPut(h, key).value.1 >= ttl
  }

  ghost predicate OrderInv<V>(store: seq<Slot<V>>, h: seq<Event<V>>, ttl: int, maxEntries: nat) {
    && Distinct(store) && EntriesAreLast(store, h, ttl) && LaterIsNewer(store, h)
    && (if h == [] then store == [] else ExpiresBy(store, h[|h| - 1].at + ttl))
  }

  /** Eviction only ever drops entries from the front. */
  lemma EvictionDropsOldest<V>(store: seq<Slot<V>>, key: string, maxEntries: nat)
    ensures var kept := Evicted(store, key, maxEntries);
            |kept| <= |store| && kept == store[|store| - |kept|..]
  {
  }

  lemma EvictedLacks<V>(store: seq<Slot<V>>, key: string, maxEntries: nat)
    requires !Has(store, key)
    ensures !Has(Evicted(store, key, maxEntries), key)
  {
    EvictionDropsOldest(store, key, maxEntries);
  }

  /** A set of an absent key evicts, then appends. */
  lemma SetAppends<V>(store: seq<Slot<V>>, key: string, value: V, now: int, ttl: int, maxEntries: nat)
    requires !Has(store, key)
    ensures SetStore(store, key, value, now, ttl, maxEntries)
            == Evicted(store, key, maxEntries) + [Slot(key, value, now + ttl)]
  {
    EvictedLacks(store, key, maxEntries);
  }

  lemma GetKeepsNewer<V>(before: seq<Slot<V>>, h: seq<Event<V>>, key: string, at: int)
    requires h != [] && h[|h| - 1] == Got(key, at) && LaterIsNewer(before, h[..|h| - 1])
    ensures LaterIsNewer(GetStore(before, key, at), h)
  {
    var after, gone := GetStore(before, key, at), Position(before, key);
    forall i, j | 0 <= i < j < |after| ensures after[j].key in OthersSince(h, after[i].key) {
      var i' := if |after| < |before| && i >= gone then i + 1 else i;
      var j' := if |after| < |before| && j >= gone then j + 1 else j;
      assert after[i] == before[i'] && after[j] == before[j'];
      assert before[j'].key in OthersSince(h[..|h| - 1], before[i'].key);
    }
  }

  lemma SetKeepsNewer<V>(before: seq<Slot<V>>, slot: Slot<V>, h: seq<Event<V>>, maxEntries: nat)
    requires h != [] && h[|h| - 1].Put? && h[|h| - 1].key == slot.key
    requires LaterIsNewer(before, h[..|h| - 1]) && !Has(before, slot.key)
    ensures LaterIsNewer(Evicted(before, slot.key, maxEntries) + [slot], h)
  {
    var kept := Evicted(before, slot.key, maxEntries);
    EvictionDropsOldest(before, slot.key, maxEntries);
    var after, d := kept + [slot], |before| - |kept|;
    forall i, j | 0 <= i < j < |after| ensures after[j].key in OthersSince(h, after[i].key) {
      assert kept[i] == before[i + d] && before[i + d].key != slot.key;
      if j < |kept| {
        assert kept[j] == before[j + d];
        assert before[j + d].key in OthersSince(h[..|h| - 1], before[i + d].key);
      }
    }
  }

  lemma StepKeepsNewer<V>(before: seq<Slot<V>>, h: seq<Event<V>>, ttl: int, maxEntries: nat)
    requires h != [] && LaterIsNewer(before, h[..|h| - 1])
    requires h[|h| - 1].Put? ==> !Has(before, h[|h| - 1].key)
    ensures LaterIsNewer(After(before, h[|h| - 1], ttl, maxEntries), h)
  {
    match h[|h| - 1]
    case Got(key, at) => GetKeepsNewer(before, h, key, at);
    case Put(key, value, at) =>
      SetAppends(before, key, value, at, ttl, maxEntries);
      SetKeepsNewer(before, Slot(key, value, at + ttl), h, maxEntries);
  }

  /** In expiry order, with nothing that expires later than `last`. */
  ghost predicate ExpiresBy<V>(store: seq<Slot<V>>, last: int) {
    ByExpiry(store) && forall i | 0 <= i < |store| :: store[i].expiresAt <= last
  }

  lemma GetKeepsExpiryOrder<V>(before: seq<Slot<V>>, key: string, at: int, last: int)
    requires ExpiresBy(before, last)
    ensures ExpiresBy(GetStore(before, key, at), last)
  {
  }

  lemma SetKeepsExpiryOrder<V>(before: seq<Slot<V>>, slot: Slot<V>, maxEntries: nat)
    requires ExpiresBy(before, slot.expiresAt)
    ensures ExpiresBy(Evicted(before, slot.key, maxEntries) + [slot], slot.expiresAt)
  {
    EvictionDropsOldest(before, slot.key, maxEntries);
  }

  lemma StepKeepsExpiryOrder<V>(before: seq<Slot<V>>, e: Event<V>, ttl: int, maxEntries: nat)
    requires ExpiresBy(before, e.at + ttl) && (e.Put? ==> !Has(before, e.key))
    ensures ExpiresBy(After(before, e, ttl, maxEntries), e.at + ttl)
  {
    match e
    case Got(key, at) => GetKeepsExpiryOrder(before, key, at, at + ttl);
    case Put(key, value, at) =>
      SetAppends(before, key, value, at, ttl, maxEntries);
      SetKeepsExpiryOrder(before, Slot(key, value, at + ttl), maxEntries);
  }

  lemma {:induction false} OrderInvHolds<V>(h: seq<Event<V>>, ttl: int, maxEntries: nat)
    requires ClockMonotone(h) && SetsFollowMisses(h, ttl, maxEntries)
    ensures OrderInv(Replay(h, ttl, maxEntries), h, ttl, maxEntries)
  {
    ReplayInv(h, ttl, maxEntries);
    if h != [] {
      var before, e, earlier := Replay(h[..|h| - 1], ttl, maxEntries), h[|h| - 1], h[..|h| - 1];
      OrderInvHolds(earlier, ttl, maxEntries);
      StepKeepsNewer(before, h, ttl, maxEntries);
      assert earlier != [] ==> earlier[|earlier| - 1].at <= e.at;
      StepKeepsExpiryOrder(before, e, ttl, maxEntries);
    }
  }

  /** Insertion order is expiry order, so the entry evicted is the one closest to expiry. */
  lemma EvictsClosestToExpiry<V>(h: seq<Event<V>>, key: string, ttl: int, maxEntries: nat)
    requires ClockMonotone(h) && SetsFollowMisses(h, ttl, maxEntries)
    ensures var store := Replay(h, ttl, maxEntries);
            && ByExpiry(store)
            && (Evicted(store, key, maxEntries) != store ==>
                  Evicted(store, key, maxEntries) == store[1..]
                  && forall i | 0 <= i < |store| :: store[0].expiresAt <= store[i].expiresAt)
  {
    OrderInvHolds(h, ttl, maxEntries);
  }

  /** The keys standing behind position i are all among those set since. */
  lemma {:induction false} NewerKeysCounted<V>(store: seq<Slot<V>>, keys: set<string>, from: nat)
    requires Distinct(store) && from <= |store|
    requires forall j | from <= j < |store| :: store[j].key in keys
    ensures |keys| >= |store| - from
    decreases |store| - from
  {
    if from < |store| {
      NewerKeysCounted(store, keys - {store[from].key}, from + 1);
    }
  }

  lemma SetKeepsOthers<V>(store: seq<Slot<V>>, key: string, value: V, now: int, ttl: int, maxEntries: nat, i: nat)
    requires i < |store| && !Has(store, key) && (i > 0 || |store| < maxEntries)
    ensures Has(SetStore(store, key, value, now, ttl, maxEntries), store[i].key)
  {
    assert SetStore(store, key, value, now, ttl, maxEntries)[if |store| >= maxEntries then i - 1 else i] == store[i];
  }

  lemma EvictedIsAccounted<V>(before: seq<Slot<V>>, h: seq<Event<V>>, ttl: int, maxEntries: nat, key: string)
    requires h != [] && h[|h| - 1].Put? && h[|h| - 1].key != key
    requires Distinct(before) && LaterIsNewer(before, h[..|h| - 1]) && !Has(before, h[|h| - 1].key)
    requires Has(before, key) && !Has(After(before, h[|h| - 1], ttl, maxEntries), key)
    ensures |OthersSince(h, key)| >= maxEntries
  {
    var e, earlier := h[|h| - 1], OthersSince(h[..|h| - 1], key);
    var i := Position(before, key);
    if i > 0 || |before| < maxEntries {
      SetKeepsOthers(before, e.key, e.value, e.at, ttl, maxEntries, i);
    }
    NewerKeysCounted(before, earlier, 1);
    if e.key in earlier {
      assert forall j | 1 <= j < |before| :: before[j].key in earlier - {e.key};
      NewerKeysCounted(before, earlier - {e.key}, 1);
    }
  }

  lemma GetKeepsOthers<V>(store: seq<Slot<V>>, key: string, now: int, other: string)
    requires Distinct(store) && Has(store, other)
    requires key != other || store[Position(store, other)].expiresAt > now
    ensures Has(GetStore(store, key, now), other)
  {
    var i := Position(store, other);
    var p := Position(store, key);
    var after := GetStore(store, key, now);
    if after != store {
      assert after[if i < p then i else i - 1].key == other;
    }
  }

  lemma SetKeepsOwn<V>(store: seq<Slot<V>>, key: string, value: V, now: int, ttl: int, maxEntries: nat)
    ensures Has(SetStore(store, key, value, now, ttl, maxEntries), key)
  {
    var t, kept := SetStore(store, key, value, now, ttl, maxEntries), Evicted(store, key, maxEntries);
    assert t[Position(kept, key)].key == key;
  }

  lemma {:induction false} AccountedHolds<V>(h: seq<Event<V>>, ttl: int, maxEntries: nat, key: string)
    requires ClockMonotone(h) && SetsFollowMisses(h, ttl, maxEntries)
    ensures Accounted(Replay(h, ttl, maxEntries), h, ttl, maxEntries, key)
  {
    if h != [] && LastPut(h, key).Some? {
      var earlier, e := h[..|h| - 1], h[|h| - 1];
      var before, after := Replay(earlier, ttl, maxEntries), Replay(h, ttl, maxEntries);
      OrderInvHolds(earlier, ttl, maxEntries);
      if e.Put? && e.key == key {
        SetKeepsOwn(before, e.key, e.value, e.at, ttl, maxEntries);
      } else {
        AccountedHolds(earlier, ttl, maxEntries, key);
        assert earlier[|earlier| - 1].at <= e.at;
        if !Has(before, key) {
          if |OthersSince(earlier, key)| >= maxEntries {
            SubsetCard(OthersSince(earlier, key), OthersSince(h, key));
          }
        } else if e.Got? {
          var i := Position(before, key);
          if e.key != key || before[i].expiresAt > e.at {
            GetKeepsOthers(before, e.key, e.at, key);
          }
        } else if !Has(after, key) {
          EvictedIsAccounted(before, h, ttl, maxEntries, key);
        }
      }
    }
  }

  lemma {:induction false} SubsetCard(a: set<string>, b: set<string>)
    requires a <= b
    ensures |a| <= |b|
  {
    if a != {} {
      var x :| x in a;
      SubsetCard(a - {x}, b - {x});
    }
  }

  lemma PresentIsAnswered<V>(store: seq<Slot<V>>, h: seq<Event<V>>, key: string, now: int, ttl: int)
    requires EntriesAreLast(store, h, ttl) && Has(store, key)
    requires LastPut(h, key).Some? && now - LastPut(h, key).value.1 < ttl
    ensures GetValue(store, key, now) == Some(LastPut(h, key).value.0)
  {
    var i := Position(store, key);
    assert i < |store|;
    assert LastPut(h, store[i].key) == Some((store[i].value, store[i].expiresAt - ttl));
  }

  /**
   With a clock that never goes back and sets only after a miss, a value set less
   than ttl ago is answered by get unless at least maxEntries distinct other keys
   were set since.
   */
  lemma MissedOnlyUnderPressure<V>(h: seq<Event<V>>, key: string, now: int, ttl: int, maxEntries: nat)
    requires ClockMonotone(h) && SetsFollowMisses(h, ttl, maxEntries)
    requires LastPut(h, key).Some? && h[|h| - 1].at <= now && now - LastPut(h, key).value.1 < ttl
    ensures GetValue(Replay(h, ttl, maxEntries), key, now) == Some(LastPut(h, key).value.0)
            || |OthersSince(h, key)| >= maxEntries
  {
    AccountedHolds(h, ttl, maxEntries, key);
    ReplayInv(h, ttl, maxEntries);
    if Has(Replay(h, ttl, maxEntries), key) {
      PresentIsAnswered(Replay(h, ttl, maxEntries), h, key, now, ttl);
    }
  }

  // ----------------------------------------------- what a reset does to the order

  /**
   Setting a present key keeps the order by expiry exactly when everything
   behind it expires no earlier than the new entry.
   */
  lemma ResetKeepsOrderExactly<V>(store: seq<Slot<V>>, key: string, value: V, now: int, ttl: int, maxEntries: nat)
    requires Distinct(store) && ByExpiry(store) && forall i | 0 <= i < |store| :: store[i].expiresAt <= now + ttl
    ensures ByExpiry(SetStore(store, key, value, now, ttl, maxEntries)) <==>
            forall j | Position(store, key) < j < |store| :: store[j].expiresAt == now + ttl
  {
    var i, t := Position(store, key), SetStore(store, key, value, now, ttl, maxEntries);
    if i < |store| {
      assert t == store[i := Slot(key, value, now + ttl)];
      if ByExpiry(t) {
        forall j | i < j < |store| ensures store[j].expiresAt == now + ttl {
          assert t[i].expiresAt <= t[j].expiresAt;
        }
      }
    }
  }

  /**
   Without the discipline a fresh value can go missing early: set again while
   present, "a" keeps its place and is evicted by the first new key, one
   millisecond after it was set, in a cache of two.
   */
  lemma ResetValueEvictedEarly(h: seq<Event<int>>)
    requires h == [Put("a", 1, 0), Put("b", 2, 1), Put("a", 3, 2), Put("c", 4, 3)]
    ensures ClockMonotone(h)
    ensures LastPut(h, "a") == Some((3, 2)) && OthersSince(h, "a") == {"c"}
    ensures GetValue(Replay(h, 60000, 2), "a", 3) == None
  {
    assert h[..3] == [Put("a", 1, 0), Put("b", 2, 1), Put("a", 3, 2)];
    assert h[..3][..2] == [Put("a", 1, 0), Put("b", 2, 1)];
    assert h[..3][..2][..1] == [Put("a", 1, 0)];
    assert h[..3][..2][..1][..0] == [];
    assert Replay(h[..3][..2][..1], 60000, 2) == [Slot("a", 1, 60000)];
    assert Replay(h[..3][..2], 60000, 2) == [Slot("a", 1, 60000), Slot("b", 2, 60001)];
    assert Replay(h[..3], 60000, 2) == [Slot("a", 3, 60002), Slot("b", 2, 60001)];
    assert Replay(h, 60000, 2) == [Slot("b", 2, 60001), Slot("c", 4, 60003)];
  }
}

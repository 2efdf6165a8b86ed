/** The session list cache: least-recently-used entries with a lifetime and a source stamp, cleared
    as a whole or by profile. Two version counters per key tell a late write that a clear came first. */
module SessionListCache {
  import opened Options

  type Profile = string

  datatype Key = Key(profile: Profile, query: string)

  datatype Slot = Slot(storedAt: real, source: string, payload: string)

  const MAX_ENTRIES := 64
  const TTL := 2.5
  const STREAMING_TTL := 45.0

  // ---- Clears and versions ----

  datatype Clear = All | Only(profile: Profile)

  predicate Covers(c: Clear, p: Profile) {
    c.All? || c.profile == p
  }

  predicate Untouched(log: seq<Clear>, p: Profile) {
    forall i | 0 <= i < |log| :: !Covers(log[i], p)
  }

  /** The version pair of a profile: clears of everything, and its own clears since the last of those. */
  function Version(log: seq<Clear>, p: Profile): (nat, nat) {
    if log == [] then (0, 0)
    else
      var v := Version(log[..|log| - 1], p);
      match log[|log| - 1]
      case All => (v.0 + 1, 0)
      case Only(q) => if q == p then (v.0, v.1 + 1) else v
  }

  predicate Less(a: (nat, nat), b: (nat, nat)) {
    a.0 < b.0 || (a.0 == b.0 && a.1 < b.1)
  }

  /** The pair stays the same while no clear covers the profile, and strictly increases, in
      lexicographic order, as soon as one does: an old pair never comes back. */
  lemma {:induction false} VersionTells(log: seq<Clear>, later: seq<Clear>, p: Profile)
    ensures Untouched(later, p) ==> Version(log + later, p) == Version(log, p)
    ensures !Untouched(later, p) ==> Less(Version(log, p), Version(log + later, p))
    decreases |later|
  {
    if later == [] {
      assert log + later == log;
    } else {
      var before, last := later[..|later| - 1], later[|later| - 1];
      VersionTells(log, before, p);
      assert (log + later)[..|log + later| - 1] == log + before;
      assert later == before + [last];
      if Untouched(before, p) && !Covers(last, p) {
        assert Untouched(later, p);
      }
    }
  }

  // ---- Recency ----

  function Without(order: seq<Key>, key: Key): seq<Key> {
    if order == [] then [] else (if order[0] == key then [] else [order[0]]) + Without(order[1..], key)
  }

  function Touched(order: seq<Key>, key: Key): seq<Key> {
    Without(order, key) + [key]
  }

  predicate Differ(order: seq<Key>) {
    forall i, j | 0 <= i < j < |order| :: order[i] != order[j]
  }

  lemma {:induction false} WithoutKeeps(order: seq<Key>, key: Key)
    requires Differ(order)
    ensures Differ(Without(order, key))
    ensures forall k :: k in Without(order, key) <==> k in order && k != key
    ensures |Without(order, key)| == |order| - if key in order then 1 else 0
    decreases |order|
  {
    if order != [] {
      var rest := order[1..];
      assert forall i | 0 <= i < |rest| :: rest[i] == order[i + 1];
      WithoutKeeps(rest, key);
      assert order == [order[0]] + rest;
      assert order[0] !in rest;
    }
  }

  lemma TouchKeeps(order: seq<Key>, key: Key)
    requires Differ(order)
    ensures Differ(Touched(order, key))
    ensures forall k :: k in Touched(order, key) <==> k in order || k == key
    ensures |Touched(order, key)| == |order| + if key in order then 0 else 1
  {
    WithoutKeeps(order, key);
  }

  lemma {:induction false} WithoutNothing(order: seq<Key>, key: Key)
    requires key !in order
    ensures Without(order, key) == order
    decreases |order|
  {
    if order != [] {
      WithoutNothing(order[1..], key);
    }
  }

  /** The recency order goes by the time of last use. */
  ghost predicate ByUse(order: seq<Key>, used: map<Key, nat>, clock: nat) {
    && (forall k | k in order :: k in used && used[k] < clock)
    && (forall i, j | 0 <= i < j < |order| :: used[order[i]] < used[order[j]])
  }

  /** A key used now belongs last, behind all others in the order they had. */
  lemma ByUseTouch(order: seq<Key>, used: map<Key, nat>, clock: nat, key: Key)
    requires Differ(order) && ByUse(order, used, clock)
    ensures ByUse(Touched(order, key), used[key := clock], clock + 1)
    ensures Touched(order, key)[|Touched(order, key)| - 1] == key
  {
    hide Without;
    ByUseWithout(order, used, clock, key);
    WithoutKeeps(order, key);
  }

  lemma {:induction false} ByUseWithout(order: seq<Key>, used: map<Key, nat>, clock: nat, key: Key)
    requires ByUse(order, used, clock)
    ensures ByUse(Without(order, key), used, clock)
    ensures forall k | k in Without(order, key) :: k in order
    decreases |order|
  {
    if order != [] {
      var rest := order[1..];
      assert forall i | 0 <= i < |rest| :: rest[i] == order[i + 1];
      ByUseWithout(rest, used, clock, key);
      assert forall k | k in rest :: k in order;
      forall k | k in rest ensures used[order[0]] < used[k] {
        var i :| 0 <= i < |rest| && rest[i] == k;
      }
    }
  }

  function KeySet(order: seq<Key>): set<Key> {
    if order == [] then {} else KeySet(order[1..]) + {order[0]}
  }

  lemma {:induction false} KeysCount(order: seq<Key>)
    ensures forall k :: k in KeySet(order) <==> k in order
    ensures Differ(order) ==> |KeySet(order)| == |order|
    decreases |order|
  {
    if order != [] {
      var (first, rest) := (order[0], order[1..]);
      KeysCount(rest);
      assert order == [first] + rest;
      if Differ(order) {
        assert forall i | 0 <= i < |rest| :: rest[i] == order[i + 1];
        Grows(KeySet(rest), first);
      }
    }
  }

  lemma Grows(keys: set<Key>, key: Key)
    requires key !in keys
    ensures |keys + {key}| == |keys| + 1
  {
  }

  lemma ByUseTail(order: seq<Key>, used: map<Key, nat>, clock: nat)
    requires order != [] && ByUse(order, used, clock)
    ensures ByUse(order[1..], used, clock)
    ensures forall k | k in order[1..] :: used[order[0]] < used[k]
  {
    assert forall i | 0 <= i < |order[1..]| :: order[1..][i] == order[i + 1];
  }

  // ---- The parts of the cache that belong together ----

  /** The recency order lists the stored keys, once each, and no more than the cap. */
  ghost predicate Ordered(order: seq<Key>, keys: set<Key>) {
    Differ(order) && |order| <= MAX_ENTRIES && forall k :: k in order <==> k in keys
  }

  /** The counters are the version pairs. */
  ghost predicate Counted(log: seq<Clear>, globalVersion: nat, profileVersions: map<Profile, nat>) {
    forall p :: Version(log, p) == (globalVersion, VersionOf(profileVersions, p))
  }

  function VersionOf(profileVersions: map<Profile, nat>, p: Profile): nat {
    if p in profileVersions then profileVersions[p] else 0
  }

  /** Nothing stored was built before a clear that covers it. */
  ghost predicate Unspoilt(log: seq<Clear>, keys: set<Key>, born: map<Key, nat>) {
    born.Keys == keys && forall k | k in keys :: born[k] <= |log| && Untouched(log[born[k]..], k.profile)
  }

  lemma CountAll(log: seq<Clear>, globalVersion: nat, profileVersions: map<Profile, nat>)
    requires Counted(log, globalVersion, profileVersions)
    ensures Counted(log + [All], globalVersion + 1, map[])
  {
    assert (log + [All])[..|log|] == log;
  }

  lemma CountOne(log: seq<Clear>, globalVersion: nat, profileVersions: map<Profile, nat>, p: Profile)
    requires Counted(log, globalVersion, profileVersions)
    ensures Counted(log + [Only(p)], globalVersion, profileVersions[p := VersionOf(profileVersions, p) + 1])
  {
    assert (log + [Only(p)])[..|log|] == log;
    forall q ensures Version(log + [Only(p)], q) == (globalVersion, VersionOf(profileVersions[p := VersionOf(profileVersions, p) + 1], q)) {
      assert Version(log, q) == (globalVersion, VersionOf(profileVersions, q));
    }
  }

  lemma UnspoiltStore(log: seq<Clear>, keys: set<Key>, born: map<Key, nat>, key: Key, seen: nat)
    requires Unspoilt(log, keys, born) && seen <= |log| && Untouched(log[seen..], key.profile)
    ensures Unspoilt(log, keys + {key}, born[key := seen])
  {
  }

  lemma UnspoiltDrop(log: seq<Clear>, keys: set<Key>, born: map<Key, nat>, key: Key)
    requires Unspoilt(log, keys, born)
    ensures Unspoilt(log, keys - {key}, born - {key})
  {
  }

  /** A clear of one profile spoils nothing when no key of that profile is left. */
  lemma UnspoiltClear(log: seq<Clear>, keys: set<Key>, born: map<Key, nat>, p: Profile)
    requires Unspoilt(log, keys, born) && forall k | k in keys :: k.profile != p
    ensures Unspoilt(log + [Only(p)], keys, born)
  {
    forall k | k in keys ensures Untouched((log + [Only(p)])[born[k]..], k.profile) {
      assert (log + [Only(p)])[born[k]..] == log[born[k]..] + [Only(p)];
    }
  }

  lemma OrderedDrop(order: seq<Key>, keys: set<Key>, key: Key)
    requires Ordered(order, keys)
    ensures Ordered(Without(order, key), keys - {key})
    ensures key !in keys ==> Without(order, key) == order
  {
    WithoutKeeps(order, key);
    if key !in order {
      WithoutNothing(order, key);
    }
  }

  /** After a touch the order fits the cap, or is one key too long at its old end. */
  lemma OrderedTouch(order: seq<Key>, keys: set<Key>, key: Key)
    requires Ordered(order, keys)
    ensures var touched := Touched(order, key);
      && (key in keys || |order| < MAX_ENTRIES ==> |touched| <= MAX_ENTRIES && Ordered(touched, keys + {key}))
      && (key !in keys && |order| == MAX_ENTRIES ==>
          |touched| == MAX_ENTRIES + 1 && touched[0] == order[0] && touched[0] != key
          && Ordered(touched[1..], (keys + {key}) - {touched[0]}))
  {
    TouchKeeps(order, key);
    var touched := Touched(order, key);
    if key !in order {
      WithoutNothing(order, key);
      assert forall i | 0 <= i < |touched| - 1 :: touched[1..][i] == touched[i + 1];
      assert forall k :: k in touched[1..] <==> k in touched && k != touched[0];
    }
  }

  class Cache {
    var slots: map<Key, Slot>
    var order: seq<Key>                    // least recently used first
    var globalVersion: nat
    var profileVersions: map<Profile, nat>
    ghost var log: seq<Clear>              // every clear so far
    ghost var born: map<Key, nat>          // how many clears a stored payload may know of
    ghost var used: map<Key, nat>          // when a key was last stored or handed out
    ghost var clock: nat

    ghost predicate Valid()
      reads this
    {
      && Ordered(order, slots.Keys) && Counted(log, globalVersion, profileVersions) && Unspoilt(log, slots.Keys, born)
      && ByUse(order, used, clock)
    }

    constructor ()
      ensures Valid() && slots == map[] && log == []
    {
      slots, order, globalVersion, profileVersions := map[], [], 0, map[];
      log, born, used, clock := [], map[], map[], 0;
    }

    /** The current version pair of a key. */
    method InvalidationStamp(key: Key) returns (stamp: (nat, nat))
      requires Valid()
      ensures stamp == Version(log, key.profile)
    {
      return (globalVersion, if key.profile in profileVersions then profileVersions[key.profile] else 0);
    }

    /** Stores a payload, unless its builder read its version pair before a clear that covers the
        key. `seen` is the number of clears at the time the pair was read. */
    method Set(key: Key, payload: string, now: real, source: string, expected: Option<(nat, nat)>, ghost seen: nat)
      returns (stored: bool)
      requires Valid() && seen <= |log|
      requires expected.Some? ==> expected.value == Version(log[..seen], key.profile)
      modifies this
      ensures Valid()
      ensures stored <==> expected.None? || Untouched(old(log)[seen..], key.profile)
      ensures !stored ==> slots == old(slots) && order == old(order)
      ensures stored && (key in old(slots) || |old(order)| < MAX_ENTRIES) ==>
        order == Touched(old(order), key) && slots == old(slots)[key := Slot(now, source, payload)]
      ensures stored && key !in old(slots) && |old(order)| == MAX_ENTRIES ==>
        && order == Touched(old(order), key)[1..]
        && slots == old(slots)[key := Slot(now, source, payload)] - {old(order)[0]}
      ensures stored && key !in old(slots) && |old(slots)| == MAX_ENTRIES ==>
        exists oldest :: oldest in old(slots)
          && (forall k | k in old(slots) && k != oldest :: k in old(used) && old(used)[oldest] < old(used)[k])
          && oldest !in slots && forall k | k in old(slots) && k != oldest :: k in slots
      ensures stored && (key in old(slots) || |old(slots)| < MAX_ENTRIES) ==> forall k | k in old(slots) :: k in slots
      ensures used == if stored then old(used)[key := old(clock)] else old(used)
      ensures log == old(log) && globalVersion == old(globalVersion) && profileVersions == old(profileVersions)
    {
      hide Version, Untouched, Touched, Ordered, Counted, Unspoilt, ByUse;
      var current := InvalidationStamp(key);
      VersionTells(log[..seen], log[seen..], key.profile);
      assert log[..seen] + log[seen..] == log;
      if expected.Some? && current != expected.value {
        return false;
      }
      ghost var from := if expected.Some? then seen else |log|;
      assert Untouched(log[|log|..], key.profile) by { NothingYet(key.profile); }
      OrderDiffers(order, slots.Keys);
      OldestIsFirst(order, slots.Keys, used, clock);
      Insert(key, Slot(now, source, payload), from);
      return true;
    }

    /** Stores an entry as the most recently used one. */
    method Insert(key: Key, slot: Slot, ghost from: nat)
      requires Valid() && from <= |log| && Untouched(log[from..], key.profile)
      modifies `slots, `order, `born, `used, `clock
      ensures Valid()
      ensures key in old(slots) || |old(order)| < MAX_ENTRIES ==>
        order == Touched(old(order), key) && slots == old(slots)[key := slot]
      ensures key !in old(slots) && |old(order)| == MAX_ENTRIES ==>
        order == Touched(old(order), key)[1..] && slots == old(slots)[key := slot] - {old(order)[0]}
      ensures |old(order)| <= MAX_ENTRIES && used == old(used)[key := old(clock)]
    {
      hide Untouched, Without, Ordered, Counted, Unspoilt, ByUse, Touched;
      InsertKeeps(order, slots.Keys, log, born, used, clock, key, from);
      TouchedIs(order, key);
      slots := slots[key := slot];
      born := born[key := from];
      order := Without(order, key) + [key];
      used, clock := used[key := clock], clock + 1;
      assert slots.Keys == old(slots).Keys + {key};
      Evict();
    }

    /** Order, keys, build times and times of use after an insertion, with and without an eviction. */
    static lemma InsertKeeps(
      order: seq<Key>, keys: set<Key>, log: seq<Clear>, born: map<Key, nat>, used: map<Key, nat>, clock: nat, key: Key, from: nat)
      requires Ordered(order, keys) && Unspoilt(log, keys, born) && ByUse(order, used, clock)
      requires from <= |log| && Untouched(log[from..], key.profile)
      ensures var (touched, all, born', used') := (Touched(order, key), keys + {key}, born[key := from], used[key := clock]);
        && touched != [] && |order| <= MAX_ENTRIES && |touched| <= MAX_ENTRIES + 1
        && (key in keys || |order| < MAX_ENTRIES ==>
            |touched| <= MAX_ENTRIES && Ordered(touched, all) && Unspoilt(log, all, born') && ByUse(touched, used', clock + 1))
        && (key !in keys && |order| == MAX_ENTRIES ==>
            && |touched| == MAX_ENTRIES + 1 && touched[0] == order[0] && Ordered(touched[1..], all - {touched[0]})
            && Unspoilt(log, all - {touched[0]}, born' - {touched[0]}) && ByUse(touched[1..], used', clock + 1))
    {
      hide Untouched, Unspoilt, ByUse, Touched;
      OrderDiffers(order, keys);
      TouchKeeps(order, key);
      OrderedTouch(order, keys, key);
      UnspoiltStore(log, keys, born, key, from);
      ByUseTouch(order, used, clock, key);
      var touched := Touched(order, key);
      UnspoiltDrop(log, keys + {key}, born[key := from], touched[0]);
      ByUseTail(touched, used[key := clock], clock + 1);
    }

    static lemma TouchedIs(order: seq<Key>, key: Key)
      ensures Touched(order, key) == Without(order, key) + [key]
    {
    }

    /** Makes a stored key the most recently used one. */
    method MoveToEnd(key: Key)
      requires Valid() && key in slots
      modifies `order, `used, `clock
      ensures Valid() && order == Touched(old(order), key) && order != [] && order[|order| - 1] == key
      ensures used == old(used)[key := old(clock)]
    {
      hide Without, Ordered, Counted, Unspoilt, ByUse;
      OrderFits();
      OrderDiffers(order, slots.Keys);
      OrderedTouch(order, slots.Keys, key);
      ByUseTouch(order, used, clock, key);
      assert slots.Keys + {key} == slots.Keys;
      order := Without(order, key) + [key];
      used, clock := used[key := clock], clock + 1;
    }

    method Remove(key: Key)
      requires Valid()
      modifies `slots, `born, `order
      ensures Valid() && slots == old(slots) - {key} && order == Without(old(order), key)
    {
      hide Without, Ordered, Counted, Unspoilt, ByUse;
      OrderedDrop(order, slots.Keys, key);
      UnspoiltDrop(log, slots.Keys, born, key);
      ByUseWithout(order, used, clock, key);
      assert (slots - {key}).Keys == slots.Keys - {key};
      slots, born, order := slots - {key}, born - {key}, Without(order, key);
    }

    static lemma OrderDiffers(order: seq<Key>, keys: set<Key>)
      requires Ordered(order, keys)
      ensures Differ(order) && |order| == |keys|
    {
      KeysCount(order);
      assert keys == KeySet(order);
    }

    /** What is first in the order was used longest ago. */
    static lemma OldestIsFirst(order: seq<Key>, keys: set<Key>, used: map<Key, nat>, clock: nat)
      requires Ordered(order, keys) && ByUse(order, used, clock)
      ensures order != [] ==>
        order[0] in keys && forall k | k in keys && k != order[0] :: k in used && order[0] in used && used[order[0]] < used[k]
    {
      if order != [] {
        ByUseTail(order, used, clock);
        assert order == [order[0]] + order[1..];
      }
    }

    /** Drops the least recently used entry when there is one too many. */
    method Evict()
      requires |order| <= MAX_ENTRIES + 1
      modifies `slots, `order, `born
      ensures |old(order)| <= MAX_ENTRIES ==> slots == old(slots) && order == old(order) && born == old(born)
      ensures |old(order)| == MAX_ENTRIES + 1 ==>
        && order == old(order)[1..] && slots == old(slots) - {old(order)[0]} && born == old(born) - {old(order)[0]}
        && slots.Keys == old(slots).Keys - {old(order)[0]}
    {
      while |order| > MAX_ENTRIES
        invariant
          || (slots == old(slots) && order == old(order) && born == old(born))
          || (|old(order)| == MAX_ENTRIES + 1 && order == old(order)[1..] && slots == old(slots) - {old(order)[0]}
              && born == old(born) - {old(order)[0]})
      {
        var oldest := order[0];
        slots := slots - {oldest};
        born := born - {oldest};
        order := order[1..];
      }
    }

    lemma NothingYet(p: Profile)
      ensures Untouched(log[|log|..], p)
    {
    }

    lemma OrderFits()
      requires Valid()
      ensures |order| <= MAX_ENTRIES
    {
    }

    /** Clears everything, or the entries of one profile. */
    method Invalidate(profile: Option<Profile>)
      requires Valid()
      modifies this
      ensures Valid()
      ensures log == old(log) + [if profile.Some? then Only(profile.value) else All]
      ensures slots == map k | k in old(slots) && profile.Some? && k.profile != profile.value :: old(slots)[k]
    {
      hide Version, Untouched, Ordered, Counted, Unspoilt, Without, ByUse;
      if profile.None? {
        CountAll(log, globalVersion, profileVersions);
        globalVersion := globalVersion + 1;
        profileVersions := map[];
        slots, order, born := map[], [], map[];
        log := log + [All];
        NothingStored();
        assert slots.Keys == {};
      } else {
        InvalidateProfile(profile.value);
      }
    }

    method InvalidateProfile(p: Profile)
      requires Valid()
      modifies this
      ensures Valid()
      ensures log == old(log) + [Only(p)]
      ensures slots == map k | k in old(slots) && k.profile != p :: old(slots)[k]
    {
      hide Version, Untouched, Ordered, Counted, Unspoilt, Without, ByUse;
      CountOne(log, globalVersion, profileVersions, p);
      profileVersions := profileVersions[p := VersionOf(profileVersions, p) + 1];
      DropProfile(p);
      UnspoiltClear(log, slots.Keys, born, p);
      log := log + [Only(p)];
    }

    /** Removes the entries of a profile one by one. */
    method DropProfile(p: Profile)
      requires Ordered(order, slots.Keys) && Unspoilt(log, slots.Keys, born) && ByUse(order, used, clock)
      modifies `slots, `order, `born
      ensures Ordered(order, slots.Keys) && Unspoilt(log, slots.Keys, born) && ByUse(order, used, clock)
      ensures slots == map k | k in old(slots) && k.profile != p :: old(slots)[k]
    {
      hide Version, Untouched, Ordered, Unspoilt, Without, ByUse;
      var pending := order;
      assert forall k | k in slots :: k in pending by { Listed(order, slots.Keys); }
      var n := 0;
      while n < |pending|
        invariant 0 <= n <= |pending|
        invariant Ordered(order, slots.Keys) && Unspoilt(log, slots.Keys, born) && ByUse(order, used, clock)
        invariant forall k | k in slots :: k in old(slots) && slots[k] == old(slots)[k]
        invariant forall k | k in old(slots) && k !in slots :: k.profile == p
        invariant forall i | 0 <= i < n && pending[i].profile == p :: pending[i] !in slots
      {
        var key := pending[n];
        if key.profile == p && key in slots {
          OrderedDrop(order, slots.Keys, key);
          ByUseWithout(order, used, clock, key);
          UnspoiltDrop(log, slots.Keys, born, key);
          assert (slots - {key}).Keys == slots.Keys - {key};
          slots := slots - {key};
          born := born - {key};
          order := Without(order, key);
        }
        n := n + 1;
      }
      forall k | k in slots ensures k.profile != p {
        assert k in pending;
      }
    }

    lemma NothingStored()
      ensures Ordered([], {}) && (forall l :: Unspoilt(l, {}, map[])) && forall used, clock :: ByUse([], used, clock)
    {
    }

    static lemma Listed(order: seq<Key>, keys: set<Key>)
      requires Ordered(order, keys)
      ensures forall k | k in keys :: k in order
    {
    }

    /** Looks a key up. A hit from an unchanged source within its lifetime is fresh; an outdated one
        is dropped, or handed out as stale when that is allowed. */
    method Get(key: Key, now: real, source: string, streaming: bool, allowStale: bool) returns (payload: Option<string>, isFresh: bool)
      requires Valid()
      modifies this
      ensures Valid()
      ensures payload.Some? ==> key in old(slots) && payload.value == old(slots)[key].payload
      ensures isFresh <==>
        && key in old(slots) && old(slots)[key].source == source
        && now - old(slots)[key].storedAt < if streaming then STREAMING_TTL else TTL
      ensures payload.Some? <==> key in old(slots) && (isFresh || allowStale)
      ensures slots == if payload.Some? then old(slots) else old(slots) - {key}
      ensures order == if payload.Some? then Touched(old(order), key) else Without(old(order), key)
      ensures used == if payload.Some? then old(used)[key := old(clock)] else old(used)
      ensures payload.Some? ==> order != [] && order[|order| - 1] == key
      ensures log == old(log)
    {
      hide Without, Touched, Ordered, Counted, Unspoilt, ByUse;
      if key !in slots {
        OrderedDrop(order, slots.Keys, key);
        return None, false;
      }
      var slot := slots[key];
      if slot.source != source {
        if allowStale {
          MoveToEnd(key);
          return Some(slot.payload), false;
        }
        Remove(key);
        return None, false;
      }
      var ttl := if streaming then STREAMING_TTL else TTL;
      isFresh := now - slot.storedAt < ttl;
      if isFresh || allowStale {
        MoveToEnd(key);
        return Some(slot.payload), isFresh;
      }
      Remove(key);
      return None, false;
    }
  }
}

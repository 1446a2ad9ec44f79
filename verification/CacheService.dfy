/** The cache in front of a callback: a hit is a recent answer of the callback, from after the last deletion. */
module CacheService {
  import opened Wrappers
  import opened Revive

  /** A stored JSON text, as the tree it parses to. */
  datatype Cached = Cached(json: Value, storedAt: nat, ttl: nat)

  /** The callback's answer for a key at each instant, None when it throws; how array elements convert to bytes;
      whether an entry lives through the last instant of its time. */
  datatype World = World(truth: (string, nat) -> Option<Value>, byteOf: Value -> Byte, inclusive: bool)

  /** The cache may drop an entry at any time. */
  datatype Event =
    | Fetch(key: string, ttl: nat)
    | Delete(deleted: string)
    | DeleteByPattern(pattern: string)
    | Reset
    | Evict(evicted: string)

  datatype Timed = Timed(at: nat, event: Event)

  predicate Includes(key: string, pattern: string) {
    pattern <= key || (key != "" && Includes(key[1..], pattern))
  }

  predicate Alive(inclusive: bool, c: Cached, now: nat) {
    if inclusive then now <= c.storedAt + c.ttl else now < c.storedAt + c.ttl
  }

  predicate Hit(inclusive: bool, store: map<string, Cached>, key: string, now: nat) {
    key in store && Alive(inclusive, store[key], now)
  }

  function Served(w: World, store: map<string, Cached>, key: string, now: nat): Option<Value> {
    if Hit(w.inclusive, store, key, now) then Revived(store[key].json, w.byteOf) else w.truth(key, now)
  }

  predicate Removes(e: Event, key: string) {
    match e
    case Fetch(_, _) => false
    case Delete(k) => k == key
    case DeleteByPattern(pattern) => Includes(key, pattern)
    case Reset => true
    case Evict(k) => k == key
  }

  function Step(w: World, store: map<string, Cached>, t: Timed): map<string, Cached> {
    match t.event
    case Fetch(key, ttl) =>
      if Hit(w.inclusive, store, key, t.at) || w.truth(key, t.at).None? then store
      else store[key := Cached(ToJson(w.truth(key, t.at).value), t.at, ttl)]
    case _ => map k | k in store && !Removes(t.event, k) :: store[k]
  }

  function Run(w: World, events: seq<Timed>): map<string, Cached> {
    if events == [] then map[] else Step(w, Run(w, events[..|events| - 1]), events[|events| - 1])
  }

  /** Event `i` asked the callback for this key and got `v`, and nothing has removed the key since. */
  ghost predicate AnsweredAt(w: World, events: seq<Timed>, i: int, key: string, v: Value) {
    && 0 <= i < |events|
    && events[i].event.Fetch? && events[i].event.key == key
    && w.truth(key, events[i].at) == Some(v)
    && forall j :: i < j < |events| ==> !Removes(events[j].event, key)
  }

  /** Every entry comes from one such event. */
  lemma {:induction false} EntryHasOrigin(w: World, events: seq<Timed>, key: string) returns (i: int, v: Value)
    requires key in Run(w, events)
    ensures AnsweredAt(w, events, i, key, v)
    ensures Run(w, events)[key] == Cached(ToJson(v), events[i].at, events[i].event.ttl)
  {
    var before, last := events[..|events| - 1], events[|events| - 1];
    if last.event.Fetch? && last.event.key == key && !Hit(w.inclusive, Run(w, before), key, last.at)
       && w.truth(key, last.at).Some? {
      i, v := |events| - 1, w.truth(key, last.at).value;
    } else {
      i, v := EntryHasOrigin(w, before, key);
      assert forall j :: i < j < |before| ==> events[j] == before[j];
    }
  }

  /** A hit returns what the callback answered at some instant that its time to live still covers, with no
      removal of the key since; up to the JSON round trip, which is exact for a value without tagged objects. */
  lemma {:induction false} HitIsRecent(w: World, events: seq<Timed>, key: string, now: nat) returns (i: int, v: Value)
    requires Hit(w.inclusive, Run(w, events), key, now) && KeepsBytes(w.byteOf)
    ensures AnsweredAt(w, events, i, key, v)
    ensures now <= events[i].at + events[i].event.ttl
    ensures Served(w, Run(w, events), key, now) == Some(v) <==> Untagged(v)
  {
    i, v := EntryHasOrigin(w, events, key);
    RoundTrip(v, w.byteOf);
  }

  /** Event `i` asked the callback and stored its answer `v`. */
  ghost predicate AskedAt(w: World, events: seq<Timed>, i: int, key: string, v: Value) {
    && AnsweredAt(w, events, i, key, v)
    && !Hit(w.inclusive, Run(w, events[..i]), key, events[i].at)
  }

  /** Nothing else happens to the key before `end`, and before `end` nobody asks the callback again. */
  ghost predicate Undisturbed(events: seq<Timed>, i: nat, key: string, end: nat) {
    forall j :: i < j < |events| ==> events[j].at < end && !Removes(events[j].event, key)
  }

  lemma {:induction false} StaysStored(w: World, events: seq<Timed>, i: nat, key: string, v: Value)
    requires AskedAt(w, events, i, key, v)
    requires Undisturbed(events, i, key, events[i].at + events[i].event.ttl)
    ensures key in Run(w, events)
    ensures Run(w, events)[key] == Cached(ToJson(v), events[i].at, events[i].event.ttl)
  {
    var n := |events| - 1;
    if i < n {
      assert events[..n][..i] == events[..i];
      StaysStored(w, events[..n], i, key, v);
    }
  }

  /** An answer is kept for its time: while it is younger than its time to live and nothing removed it, the callback is
      not asked, and what is served is that answer after the JSON round trip. */
  lemma {:induction false} FreshIsHit(w: World, events: seq<Timed>, i: nat, key: string, v: Value, now: nat)
    requires AskedAt(w, events, i, key, v)
    requires Undisturbed(events, i, key, events[i].at + events[i].event.ttl)
    requires now < events[i].at + events[i].event.ttl
    ensures Hit(w.inclusive, Run(w, events), key, now)
    ensures Served(w, Run(w, events), key, now) == Revived(ToJson(v), w.byteOf)
  {
    StaysStored(w, events, i, key, v);
  }

  /** An entry older than its time to live is not served. */
  lemma {:induction false} ExpiredIsMiss(w: World, store: map<string, Cached>, key: string, now: nat)
    requires key in store && now > store[key].storedAt + store[key].ttl
    ensures Served(w, store, key, now) == w.truth(key, now)
  {}

  predicate OccursAt(key: string, pattern: string, at: nat) {
    at + |pattern| <= |key| && key[at..at + |pattern|] == pattern
  }

  lemma {:induction false} AtStart(key: string, pattern: string)
    ensures OccursAt(key, pattern, 0) <==> pattern <= key
  {
    if |pattern| <= |key| {
      assert key[0..0 + |pattern|] == key[..|pattern|];
    }
  }

  /** A pattern matches exactly the keys it is a part of. */
  lemma {:induction false} IncludesExactly(key: string, pattern: string)
    ensures Includes(key, pattern) <==> exists at: nat :: OccursAt(key, pattern, at)
  {
    AtStart(key, pattern);
    if pattern <= key {
      assert OccursAt(key, pattern, 0);
    } else if key != "" {
      IncludesExactly(key[1..], pattern);
      forall at: nat | at < |key| ensures OccursAt(key[1..], pattern, at) <==> OccursAt(key, pattern, at + 1) {
        OneLater(key, pattern, at);
      }
      if at: nat :| OccursAt(key, pattern, at) {
        assert OccursAt(key[1..], pattern, at - 1);
      }
      if at: nat :| OccursAt(key[1..], pattern, at) {
        assert OccursAt(key, pattern, at + 1);
      }
    }
  }

  lemma {:induction false} OneLater(key: string, pattern: string, at: nat)
    requires key != ""
    ensures OccursAt(key[1..], pattern, at) <==> OccursAt(key, pattern, at + 1)
  {
    if at + 1 + |pattern| <= |key| {
      assert key[1..][at..at + |pattern|] == key[at + 1..at + 1 + |pattern|];
    }
  }

  /** What each removal takes away, and that it leaves the other entries. */
  lemma {:induction false} RemovesExactly(w: World, store: map<string, Cached>, t: Timed, key: string)
    requires key in store && !t.event.Fetch?
    ensures key in Step(w, store, t)
            <==> match t.event
                 case Delete(k) => k != key
                 case Evict(k) => k != key
                 case DeleteByPattern(pattern) => !Includes(key, pattern)
                 case _ => false
    ensures key in Step(w, store, t) ==> Step(w, store, t)[key] == store[key]
  {}

  /** A call changes its own key's entry only, and that only when it asks the callback and gets an answer. */
  lemma {:induction false} FetchExactly(w: World, store: map<string, Cached>, key: string, ttl: nat, now: nat,
          k: string)
    ensures var after := Step(w, store, Timed(now, Fetch(key, ttl)));
            && (k != key || Hit(w.inclusive, store, key, now) || w.truth(key, now) == None ==>
                  (k in after <==> k in store) && (k in store ==> after[k] == store[k]))
            && (!Hit(w.inclusive, store, key, now) && w.truth(key, now) != None ==>
                  key in after && after[key] == Cached(ToJson(w.truth(key, now).value), now, ttl))
  {}

  /** A removed key is a miss until the callback is asked again: the answer is the current one. */
  lemma {:induction false} RemovedIsMiss(w: World, events: seq<Timed>, i: nat, key: string, now: nat)
    requires i < |events| && Removes(events[i].event, key)
    requires forall j :: i < j < |events| ==> !(events[j].event.Fetch? && events[j].event.key == key)
    ensures Served(w, Run(w, events), key, now) == w.truth(key, now)
  {
    if key in Run(w, events) {
      var k, v := EntryHasOrigin(w, events, key);
      assert false;
    }
  }

  class Service {
    const inclusive: bool
    const byteOf: Value -> Byte
    var store: map<string, Cached>

    constructor (inclusive: bool, byteOf: Value -> Byte)
      ensures store == map[] && this.inclusive == inclusive && this.byteOf == byteOf
    {
      this.inclusive, this.byteOf := inclusive, byteOf;
      store := map[];
    }

    /** `callback` is what calling it now would give. */
    method FetchAndCache(key: string, callback: Option<Value>, ttl: nat, now: nat) returns (value: Option<Value>)
      modifies this
      ensures forall w: World :: w.inclusive == inclusive && w.byteOf == byteOf && w.truth(key, now) == callback ==>
                value == Served(w, old(store), key, now) && store == Step(w, old(store), Timed(now, Fetch(key, ttl)))
    {
      if key in store && Alive(inclusive, store[key], now) {
        return Revived(store[key].json, byteOf);
      }
      if callback.None? {
        return None;
      }
      store := store[key := Cached(ToJson(callback.value), now, ttl)];
      value := callback;
    }

    method Delete(key: string)
      modifies this
      ensures store == map k | k in old(store) && k != key :: old(store)[k]
    {
      store := map k | k in store && k != key :: store[k];
    }

    /** Deletes the keys that include the pattern, one at a time, from the list of keys taken at the start. */
    method DeleteByPattern(pattern: string, keys: seq<string>)
      requires forall k :: k in keys <==> k in store
      modifies this
      ensures store == map k | k in old(store) && !Includes(k, pattern) :: old(store)[k]
    {
      for i := 0 to |keys|
        invariant forall k :: k in store <==> k in old(store) && !(k in keys[..i] && Includes(k, pattern))
        invariant forall k :: k in store ==> store[k] == old(store)[k]
      {
        assert keys[..i + 1] == keys[..i] + [keys[i]];
        if Includes(keys[i], pattern) {
          Delete(keys[i]);
        }
      }
      assert keys[..|keys|] == keys;
    }
  }
}

/** The global throttler: a counter in the cache whose entry expires, refreshed only by accepted requests. */
module Throttle {
  import opened Wrappers
  import opened Sequences

  /** `inclusive`: whether the cache still returns an entry whose age is exactly its time to live. */
  datatype Config = Config(limit: nat, cooldown: nat, inclusive: bool)

  datatype Entry = Entry(count: nat, storedAt: nat)

  predicate Alive(c: Config, storedAt: nat, now: nat) {
    if c.inclusive then now <= storedAt + c.cooldown else now < storedAt + c.cooldown
  }

  function CountAt(c: Config, entry: Option<Entry>, now: nat): nat {
    if entry.Some? && Alive(c, entry.value.storedAt, now) then entry.value.count else 0
  }

  predicate Accepts(c: Config, entry: Option<Entry>, now: nat) {
    CountAt(c, entry, now) <= c.limit
  }

  function After(c: Config, entry: Option<Entry>, now: nat): Option<Entry> {
    if Accepts(c, entry, now) then Some(Entry(CountAt(c, entry, now) + 1, now)) else entry
  }

  /** One request in plain times: without an entry, or when it is older than the cooldown, the request is accepted and
      counted as the first; when it is younger, the request is accepted exactly while the count is at most the limit,
      and counted on. At an age of exactly the cooldown the cache decides which of the two it is. */
  ghost predicate Decides(c: Config, before: Option<Entry>, now: nat, accepted: bool, after: Option<Entry>) {
    match before
    case None => accepted && after == Some(Entry(1, now))
    case Some(e) =>
      if now > e.storedAt + c.cooldown || (now == e.storedAt + c.cooldown && !c.inclusive)
      then accepted && after == Some(Entry(1, now))
      else (accepted <==> e.count <= c.limit) && after == Some(if accepted then Entry(e.count + 1, now) else e)
  }

  /** The interceptor over the cache; the key is the path of the route. */
  class GlobalThrottler {
    const config: Config
    var store: map<string, Entry>

    constructor (config: Config)
      ensures this.config == config && store == map[]
    {
      this.config := config;
      store := map[];
    }

    function Stored(key: string): Option<Entry>
      reads this
    {
      if key in store then Some(store[key]) else None
    }

    method Intercept(key: string, now: nat) returns (accepted: bool)
      modifies this
      ensures accepted == Accepts(config, old(Stored(key)), now)
      ensures Stored(key) == After(config, old(Stored(key)), now)
      ensures forall k :: k != key ==> Stored(k) == old(Stored(k))
      ensures Decides(config, old(Stored(key)), now, accepted, Stored(key))
    {
      var count := 0;
      if key in store && Alive(config, store[key].storedAt, now) {
        count := store[key].count;
      }
      if count > config.limit {
        return false;
      }
      store := store[key := Entry(count + 1, now)];
      accepted := true;
    }
  }

  // ---------- runs ----------

  /** A request, or the cache dropping the counter: it may evict an entry, and a reset deletes all. */
  datatype Event = Request(at: nat) | Drop(at: nat)

  /** The entry after some events, the times of all accepted requests, and of those since the last drop. */
  datatype State = State(entry: Option<Entry>, accepted: seq<nat>, kept: seq<nat>)

  function Step(c: Config, s: State, e: Event): State {
    match e
    case Drop(_) => State(None, s.accepted, [])
    case Request(now) =>
      if Accepts(c, s.entry, now) then State(After(c, s.entry, now), s.accepted + [now], s.kept + [now]) else s
  }

  function Run(c: Config, events: seq<Event>): State {
    if events == [] then State(None, [], []) else Step(c, Run(c, events[..|events| - 1]), events[|events| - 1])
  }

  ghost predicate Ordered(times: seq<nat>) {
    forall i, j :: 0 <= i < j < |times| ==> times[i] <= times[j]
  }

  ghost predicate InOrder(events: seq<Event>) {
    forall i, j :: 0 <= i < j < |events| ==> events[i].at <= events[j].at
  }

  /** The unbroken chain of accepted requests that ends with the last one: each came while the entry of the
      one before was alive. */
  function Chain(c: Config, accepted: seq<nat>): nat {
    var n := |accepted|;
    if n == 0 then 0
    else if n == 1 || !Alive(c, accepted[n - 2], accepted[n - 1]) then 1
    else Chain(c, accepted[..n - 1]) + 1
  }

  /** The counter is the length of the current chain since the last drop, and never exceeds limit + 1. */
  ghost predicate Tracks(c: Config, s: State) {
    && Chain(c, s.kept) <= c.limit + 1
    && (s.kept == [] ==> s.entry == None)
    && (s.kept != [] ==> s.entry == Some(Entry(Chain(c, s.kept), s.kept[|s.kept| - 1])))
  }

  lemma {:induction false} StepTracks(c: Config, s: State, e: Event)
    requires Tracks(c, s)
    ensures Tracks(c, Step(c, s, e))
  {
    if e.Request? {
      assert (s.kept + [e.at])[..|s.kept|] == s.kept;
    }
  }

  lemma {:induction false} CounterIsChain(c: Config, events: seq<Event>)
    ensures Tracks(c, Run(c, events))
  {
    if events != [] {
      CounterIsChain(c, events[..|events| - 1]);
      StepTracks(c, Run(c, events[..|events| - 1]), events[|events| - 1]);
    }
  }

  lemma {:induction false} AcceptedInOrder(c: Config, events: seq<Event>)
    requires InOrder(events)
    ensures Ordered(Run(c, events).kept)
    ensures forall i :: 0 <= i < |Run(c, events).kept| ==>
              events != [] && Run(c, events).kept[i] <= events[|events| - 1].at
  {
    if events != [] {
      AcceptedInOrder(c, events[..|events| - 1]);
    }
  }

  /** A request is refused exactly when it continues a chain of limit + 1 accepted requests since the last drop;
      in particular one that comes after the last entry has expired is always accepted. */
  lemma {:induction false} RefusedExactly(c: Config, events: seq<Event>, now: nat)
    ensures var s := Run(c, events);
            !Accepts(c, s.entry, now)
            <==> s.kept != [] && Alive(c, s.kept[|s.kept| - 1], now) && Chain(c, s.kept) == c.limit + 1
  {
    CounterIsChain(c, events);
  }

  // ---------- in plain times ----------

  /** Each of the times follows the one before within the cooldown. */
  ghost predicate Linked(times: seq<nat>, cooldown: nat, inclusive: bool) {
    forall i :: 0 <= i < |times| - 1 ==>
      times[i + 1] < times[i] + cooldown || (inclusive && times[i + 1] == times[i] + cooldown)
  }

  /** The last `n` of the times. */
  ghost function Last(times: seq<nat>, n: nat): seq<nat>
    requires n <= |times|
  {
    times[|times| - n..]
  }

  lemma {:induction false} LinkedSnoc(c: Config, times: seq<nat>, t: nat)
    requires times != []
    ensures Linked(times + [t], c.cooldown, c.inclusive)
            <==> Linked(times, c.cooldown, c.inclusive) && Alive(c, times[|times| - 1], t)
  {
    var all := times + [t];
    assert forall i :: 0 <= i < |times| ==> all[i] == times[i];
    if Linked(all, c.cooldown, c.inclusive) {
      assert Alive(c, all[|times| - 1], all[|times|]);
      forall i | 0 <= i < |times| - 1
        ensures times[i + 1] < times[i] + c.cooldown || (c.inclusive && times[i + 1] == times[i] + c.cooldown)
      {
        assert all[i + 1] < all[i] + c.cooldown || (c.inclusive && all[i + 1] == all[i] + c.cooldown);
      }
    }
  }

  /** The chain has `n` requests or more exactly when the last `n` follow each other within the cooldown. */
  lemma {:induction false} ChainIsLinked(c: Config, accepted: seq<nat>, n: nat)
    requires 1 <= n
    ensures Chain(c, accepted) >= n <==> n <= |accepted| && Linked(Last(accepted, n), c.cooldown, c.inclusive)
  {
    var m := |accepted|;
    ChainAtMost(c, accepted);
    if 2 <= n <= m {
      var before := accepted[..m - 1];
      ChainIsLinked(c, before, n - 1);
      assert Last(accepted, n) == Last(before, n - 1) + [accepted[m - 1]];
      LinkedSnoc(c, Last(before, n - 1), accepted[m - 1]);
    }
  }

  lemma {:induction false} ChainAtMost(c: Config, accepted: seq<nat>)
    ensures Chain(c, accepted) <= |accepted| && (accepted != [] ==> Chain(c, accepted) >= 1)
  {
    if |accepted| > 1 {
      ChainAtMost(c, accepted[..|accepted| - 1]);
    }
  }

  /** A request is refused exactly when the cache has kept the counter over at least limit + 1 accepted requests, of
      which the last limit + 1, and then this one, follow each other within the cooldown. */
  lemma {:induction false} RefusedInTimes(c: Config, events: seq<Event>, now: nat)
    ensures var s := Run(c, events);
            Step(c, s, Request(now)).accepted == s.accepted
            <==> c.limit + 1 <= |s.kept| && Linked(Last(s.kept, c.limit + 1) + [now], c.cooldown, c.inclusive)
  {
    var s := Run(c, events);
    RefusedExactly(c, events, now);
    CounterIsChain(c, events);
    ChainIsLinked(c, s.kept, c.limit + 1);
    if c.limit + 1 <= |s.kept| {
      LinkedSnoc(c, Last(s.kept, c.limit + 1), now);
    }
  }

  /** Over any run: more than a cooldown after the last accepted request, or after a drop, a request is accepted and
      the counter starts again at 1; less than a cooldown after it the counter goes on, and only a counter above the
      limit refuses. */
  lemma {:induction false} ExpiryInTimes(c: Config, events: seq<Event>, now: nat)
    ensures var s := Run(c, events);
            var after := Step(c, s, Request(now));
            && (s.kept == [] || now > s.kept[|s.kept| - 1] + c.cooldown ==>
                  after.accepted == s.accepted + [now] && after.entry == Some(Entry(1, now)))
            && (s.kept != [] && now < s.kept[|s.kept| - 1] + c.cooldown ==>
                  && s.entry.Some?
                  && (after.accepted == s.accepted + [now] <==> s.entry.value.count <= c.limit)
                  && after.entry == if s.entry.value.count <= c.limit then Some(Entry(s.entry.value.count + 1, now))
                                    else s.entry)
  {
    CounterIsChain(c, events);
  }

  /** The requests the counter knows are those accepted since the last drop. */
  lemma {:induction false} KeptSinceDrop(c: Config, events: seq<Event>, drop: int)
    requires -1 <= drop < |events| && (drop >= 0 ==> events[drop].Drop?)
    requires forall i :: drop < i < |events| ==> events[i].Request?
    ensures var s := Run(c, events);
            var before := if drop < 0 then [] else Run(c, events[..drop]).accepted;
            s.accepted == before + s.kept
  {
    if drop + 1 < |events| {
      var n := |events| - 1;
      KeptSinceDrop(c, events[..n], drop);
      assert drop >= 0 ==> events[..n][..drop] == events[..drop];
    }
  }

  predicate Inside(c: Config, at: nat, start: nat) {
    start <= at < start + c.cooldown
  }

  /** Accepted requests in the half-open window of one cooldown from `start`. */
  function InWindow(c: Config, accepted: seq<nat>, start: nat): nat {
    if accepted == [] then 0
    else InWindow(c, accepted[..|accepted| - 1], start) + (if Inside(c, accepted[|accepted| - 1], start) then 1 else 0)
  }

  /** Drops in that window. */
  function DropsIn(c: Config, events: seq<Event>, start: nat): nat {
    if events == [] then 0
    else
      var e := events[|events| - 1];
      DropsIn(c, events[..|events| - 1], start) + (if e.Drop? && Inside(c, e.at, start) then 1 else 0)
  }

  /** What falls into one window is part of one chain. */
  lemma {:induction false} WindowInChain(c: Config, accepted: seq<nat>, start: nat)
    requires Ordered(accepted) && accepted != [] && accepted[|accepted| - 1] < start + c.cooldown
    ensures InWindow(c, accepted, start) <= Chain(c, accepted)
  {
    var before := accepted[..|accepted| - 1];
    if before != [] {
      if before[|before| - 1] >= start {
        WindowInChain(c, before, start);
      } else {
        NothingBefore(c, before, start);
      }
    }
  }

  lemma {:induction false} NothingBefore(c: Config, accepted: seq<nat>, start: nat)
    requires Ordered(accepted) && accepted != [] && accepted[|accepted| - 1] < start
    ensures InWindow(c, accepted, start) == 0
  {
    if |accepted| > 1 {
      NothingBefore(c, accepted[..|accepted| - 1], start);
    }
  }

  /** Until the window is over, every drop in it has let through at most limit + 1 requests of it. */
  ghost predicate Paced(c: Config, s: State, drops: nat, start: nat) {
    InWindow(c, s.accepted, start) <= (c.limit + 1) * drops + InWindow(c, s.kept, start)
  }

  lemma {:induction false} OneDropMore(limit: nat, drops: nat)
    ensures (limit + 1) * (drops + 1) == (limit + 1) * drops + (limit + 1)
  {}

  lemma {:induction false} RequestPaced(c: Config, s: State, now: nat, drops: nat, start: nat)
    requires Paced(c, s, drops, start)
    ensures Paced(c, Step(c, s, Request(now)), drops, start)
  {
    assert (s.accepted + [now])[..|s.accepted|] == s.accepted && (s.kept + [now])[..|s.kept|] == s.kept;
  }

  lemma {:induction false} KeptFits(c: Config, s: State, now: nat, start: nat)
    requires Tracks(c, s) && Ordered(s.kept) && now < start + c.cooldown
    requires forall i :: 0 <= i < |s.kept| ==> s.kept[i] <= now
    ensures InWindow(c, s.kept, start) <= c.limit + 1
    ensures now < start ==> InWindow(c, s.kept, start) == 0
  {
    if s.kept != [] {
      WindowInChain(c, s.kept, start);
      if now < start {
        NothingBefore(c, s.kept, start);
      }
    }
  }

  lemma {:induction false} PacedUntil(c: Config, events: seq<Event>, start: nat)
    requires InOrder(events) && (events != [] ==> events[|events| - 1].at < start + c.cooldown)
    ensures Paced(c, Run(c, events), DropsIn(c, events, start), start)
  {
    if events != [] {
      var before, e := events[..|events| - 1], events[|events| - 1];
      PacedUntil(c, before, start);
      if e.Request? {
        RequestPaced(c, Run(c, before), e.at, DropsIn(c, before, start), start);
      } else {
        CounterIsChain(c, before);
        AcceptedInOrder(c, before);
        KeptFits(c, Run(c, before), e.at, start);
        OneDropMore(c.limit, DropsIn(c, before, start));
      }
    }
  }

  lemma {:induction false} AfterWindow(c: Config, s: State, e: Event, start: nat)
    requires e.at >= start + c.cooldown
    ensures InWindow(c, Step(c, s, e).accepted, start) == InWindow(c, s.accepted, start)
  {
    assert (s.accepted + [e.at])[..|s.accepted|] == s.accepted;
  }

  /** Every window of one cooldown, wherever it starts, holds at most limit + 1 accepted requests for each time
      the counter is dropped in it and once more; so at most limit + 1 when the cache keeps the counter. */
  lemma {:induction false} SlidingWindow(c: Config, events: seq<Event>, start: nat)
    requires InOrder(events)
    ensures InWindow(c, Run(c, events).accepted, start) <= (c.limit + 1) * (DropsIn(c, events, start) + 1)
    ensures (forall e :: e in events ==> e.Request?) ==> InWindow(c, Run(c, events).accepted, start) <= c.limit + 1
  {
    OneDropMore(c.limit, DropsIn(c, events, start));
    if events != [] {
      var before, e := events[..|events| - 1], events[|events| - 1];
      if e.at >= start + c.cooldown {
        SlidingWindow(c, before, start);
        AfterWindow(c, Run(c, before), e, start);
      } else {
        PacedUntil(c, events, start);
        CounterIsChain(c, events);
        AcceptedInOrder(c, events);
        KeptFits(c, Run(c, events), e.at, start);
      }
    }
    if forall e :: e in events ==> e.Request? {
      NoDrops(c, events, start);
    }
  }

  lemma {:induction false} NoDrops(c: Config, events: seq<Event>, start: nat)
    requires forall e :: e in events ==> e.Request?
    ensures DropsIn(c, events, start) == 0
  {
    if events != [] {
      assert events[|events| - 1] in events;
      NoDrops(c, events[..|events| - 1], start);
    }
  }

  /** The bound is attained, not limit: of requests at one instant limit + 1 are accepted. */
  lemma {:induction false} WindowIsAttained(c: Config, t: nat, n: nat)
    requires c.cooldown > 0 && n <= c.limit + 1
    ensures Run(c, Repeat(Request(t), n)).accepted == Repeat(t, n) && InWindow(c, Repeat(t, n), t) == n
    ensures Run(c, Repeat(Request(t), n)).entry == if n == 0 then None else Some(Entry(n, t))
  {
    if n > 0 {
      WindowIsAttained(c, t, n - 1);
      var before := Run(c, Repeat(Request(t), n - 1));
      assert Repeat(Request(t), n)[..n - 1] == Repeat(Request(t), n - 1);
      OneMoreAtOnce(c, t, n, before);
    }
  }

  lemma {:induction false} OneMoreAtOnce(c: Config, t: nat, n: nat, before: State)
    requires c.cooldown > 0 && 1 <= n <= c.limit + 1
    requires before.accepted == Repeat(t, n - 1) && InWindow(c, Repeat(t, n - 1), t) == n - 1
    requires before.entry == if n == 1 then None else Some(Entry(n - 1, t))
    ensures var after := Step(c, before, Request(t));
            after.accepted == Repeat(t, n) && after.entry == Some(Entry(n, t)) && InWindow(c, Repeat(t, n), t) == n
  {
    assert Repeat(t, n)[..n - 1] == Repeat(t, n - 1);
  }
}

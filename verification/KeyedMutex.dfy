/** Request mutexes: one mutex a key, found or created in one synchronous step, then acquired in turn. */
module KeyedMutex {
  import opened Wrappers

  // ---------- keys ----------

  datatype Origin = Query | Param | Body | Auth

  /** The named values a request carries; a request may come without a user or a body. */
  datatype Values = Values(query: map<string, string>, params: map<string, string>,
                           body: Option<map<string, string>>, user: Option<map<string, string>>)

  datatype MutexKey = MutexKey(identifier: string, data: seq<(string, string)>)

  function OriginText(origin: Origin): string {
    match origin
    case Query => "query"
    case Param => "param"
    case Body => "body"
    case Auth => "auth"
  }

  /** A value that is missing where it should be prints as "undefined". */
  function Printed(values: map<string, string>, name: string): string {
    if name in values then values[name] else "undefined"
  }

  /** None where reading throws: from no user, from no body, and a missing query parameter, which cannot be
      turned into a string. */
  function ValueOf(values: Values, origin: Origin, name: string): Option<string> {
    match origin
    case Auth => if values.user.Some? then Some(Printed(values.user.value, name)) else None
    case Body => if values.body.Some? then Some(Printed(values.body.value, name)) else None
    case Param => Some(Printed(values.params, name))
    case Query => if name in values.query then Some(values.query[name]) else None
  }

  function DataEntry(origin: Origin, value: string): string {
    OriginText(origin) + ":" + value
  }

  /** The text of a named value, the word undefined where it is missing. */
  ghost predicate TextOf(values: map<string, string>, name: string, text: string) {
    text == if name in values then values[name] else "undefined"
  }

  /** The entry of a lock value: its origin, a colon, and the value read from that part of the request. */
  ghost predicate IsEntry(values: Values, name: string, origin: Origin, entry: string) {
    match origin
    case Auth => values.user.Some? && exists t :: TextOf(values.user.value, name, t) && entry == "auth:" + t
    case Body => values.body.Some? && exists t :: TextOf(values.body.value, name, t) && entry == "body:" + t
    case Param => exists t :: TextOf(values.params, name, t) && entry == "param:" + t
    case Query => name in values.query && entry == "query:" + values.query[name]
  }

  /** Reading a lock value throws: there is no user, no body, or no such query parameter. */
  predicate Throws(values: Values, name: string, origin: Origin) {
    (origin == Auth && values.user == None) || (origin == Body && values.body == None)
    || (origin == Query && name !in values.query)
  }

  lemma {:induction false} EntryExactly(values: Values, name: string, origin: Origin)
    ensures ValueOf(values, origin, name).None? <==> Throws(values, name, origin)
    ensures !Throws(values, name, origin) ==>
              IsEntry(values, name, origin, DataEntry(origin, ValueOf(values, origin, name).value))
  {
    if !Throws(values, name, origin) {
      var t := ValueOf(values, origin, name).value;
      match origin
      case Auth => assert TextOf(values.user.value, name, t) && DataEntry(origin, t) == "auth:" + t;
      case Body => assert TextOf(values.body.value, name, t) && DataEntry(origin, t) == "body:" + t;
      case Param => assert TextOf(values.params, name, t) && DataEntry(origin, t) == "param:" + t;
      case Query => assert DataEntry(origin, t) == "query:" + t;
    }
  }

  /** The key of a request to a route. */
  ghost predicate IsKeyOf(key: MutexKey, identifier: string, lockValues: seq<(string, Origin)>, values: Values) {
    && key.identifier == identifier && |key.data| == |lockValues|
    && forall i :: 0 <= i < |lockValues| ==>
         key.data[i].0 == lockValues[i].0 && IsEntry(values, lockValues[i].0, lockValues[i].1, key.data[i].1)
  }

  /** Two requests agree on a lock value. */
  ghost predicate SameValue(v: Values, w: Values, name: string, origin: Origin) {
    match origin
    case Auth => v.user.Some? && w.user.Some? && exists t :: TextOf(v.user.value, name, t)
                                                             && TextOf(w.user.value, name, t)
    case Body => v.body.Some? && w.body.Some? && exists t :: TextOf(v.body.value, name, t)
                                                             && TextOf(w.body.value, name, t)
    case Param => exists t :: TextOf(v.params, name, t) && TextOf(w.params, name, t)
    case Query => name in v.query && name in w.query && v.query[name] == w.query[name]
  }

  lemma {:induction false} SameEntry(v: Values, w: Values, name: string, origin: Origin, a: string, b: string)
    requires IsEntry(v, name, origin, a) && IsEntry(w, name, origin, b)
    ensures a == b <==> SameValue(v, w, name, origin)
  {
    var n := match origin case Auth => 5 case Body => 5 case Param => 6 case Query => 6;
    if a == b {
      assert a[n..] == b[n..];
    }
  }

  /** Two requests to one route share a key, and so a mutex, exactly when they agree on every lock value. */
  lemma {:induction false} SameKeyExactly(key: MutexKey, other: MutexKey, identifier: string,
          lockValues: seq<(string, Origin)>, v: Values, w: Values)
    requires IsKeyOf(key, identifier, lockValues, v) && IsKeyOf(other, identifier, lockValues, w)
    ensures key == other
            <==> forall i :: 0 <= i < |lockValues| ==> SameValue(v, w, lockValues[i].0, lockValues[i].1)
  {
    forall i | 0 <= i < |lockValues|
      ensures key.data[i].1 == other.data[i].1 <==> SameValue(v, w, lockValues[i].0, lockValues[i].1)
    {
      SameEntry(v, w, lockValues[i].0, lockValues[i].1, key.data[i].1, other.data[i].1);
    }
    if forall i :: 0 <= i < |lockValues| ==> SameValue(v, w, lockValues[i].0, lockValues[i].1) {
      assert key.data == other.data;
    }
  }

  /** The key object of a request, built entry by entry; None when an entry throws. */
  method BuildKey(identifier: string, lockValues: seq<(string, Origin)>, values: Values) returns (key: Option<MutexKey>)
    ensures key.None? <==> exists i :: 0 <= i < |lockValues| && Throws(values, lockValues[i].0, lockValues[i].1)
    ensures key.Some? ==> IsKeyOf(key.value, identifier, lockValues, values)
  {
    var data: seq<(string, string)> := [];
    for i := 0 to |lockValues|
      invariant |data| == i
      invariant forall k :: 0 <= k < i ==>
                  && !Throws(values, lockValues[k].0, lockValues[k].1)
                  && data[k].0 == lockValues[k].0
                  && IsEntry(values, lockValues[k].0, lockValues[k].1, data[k].1)
    {
      EntryExactly(values, lockValues[i].0, lockValues[i].1);
      var value := ValueOf(values, lockValues[i].1, lockValues[i].0);
      if value.None? {
        return None;
      }
      data := data + [(lockValues[i].0, DataEntry(lockValues[i].1, value.value))];
    }
    key := Some(MutexKey(identifier, data));
  }

  /** An entry determines where its value came from and what it is. */
  lemma {:induction false} EntryInjective(o: Origin, v: string, o': Origin, v': string)
    requires DataEntry(o, v) == DataEntry(o', v')
    ensures o == o' && v == v'
  {
    var t, t' := DataEntry(o, v), DataEntry(o', v');
    assert t[0] == OriginText(o)[0] && t'[0] == OriginText(o')[0];
    assert t[|OriginText(o)| + 1..] == v && t'[|OriginText(o)| + 1..] == v';
  }

  // ---------- the mutexes ----------

  datatype Mutex = Mutex(owner: Option<nat>, queue: seq<nat>)
  datatype Phase = Waiting | Running | Finished

  /** Requests are numbered in order of arrival. */
  datatype Request = Request(key: MutexKey, mutex: nat, phase: Phase)
  datatype State = State(registry: map<MutexKey, nat>, mutexes: seq<Mutex>, requests: seq<Request>)

  /** A request arrives; a request's response, or its error, calls its releaser, perhaps more than once. */
  datatype Event = Arrive(key: MutexKey) | Respond(request: nat) | Fail(failed: nat)

  /** get, then set when nothing was found: no other request runs in between. */
  function GetOrCreate(s: State, key: MutexKey): State {
    if key in s.registry then s
    else State(s.registry[key := |s.mutexes|], s.mutexes + [Mutex(None, [])], s.requests)
  }

  function Acquire(s: State, key: MutexKey): State
    requires key in s.registry && s.registry[key] < |s.mutexes|
  {
    var m, r := s.registry[key], |s.requests|;
    var mutex := s.mutexes[m];
    if mutex.owner.None? then
      State(s.registry, s.mutexes[m := Mutex(Some(r), mutex.queue)], s.requests + [Request(key, m, Running)])
    else
      State(s.registry, s.mutexes[m := Mutex(mutex.owner, mutex.queue + [r])], s.requests + [Request(key, m, Waiting)])
  }

  /** The releaser of a request works once: it frees the mutex or hands it to the first in the queue. */
  function Release(s: State, r: nat): (after: State)
    requires Inv(s)
    ensures after.registry == s.registry && |after.mutexes| == |s.mutexes| && |after.requests| == |s.requests|
  {
    if r >= |s.requests| || !s.requests[r].phase.Running? then s
    else
      var m := s.requests[r].mutex;
      assert RequestOk(s, r) && MutexOk(s, m);
      var queue := s.mutexes[m].queue;
      var done := s.requests[r := s.requests[r].(phase := Finished)];
      if queue == [] then State(s.registry, s.mutexes[m := Mutex(None, [])], done)
      else State(s.registry, s.mutexes[m := Mutex(Some(queue[0]), queue[1..])],
             done[queue[0] := done[queue[0]].(phase := Running)])
  }

  ghost function Step(s: State, e: Event): State
    requires Inv(s)
  {
    match e
    case Arrive(key) => Acquire(GetOrCreate(s, key), key)
    case Respond(r) => Release(s, r)
    case Fail(r) => Release(s, r)
  }

  // ---------- the invariant ----------

  ghost predicate RegistryOk(s: State) {
    && (forall k :: k in s.registry ==> s.registry[k] < |s.mutexes|)
    && (forall k, k' :: k in s.registry && k' in s.registry && s.registry[k] == s.registry[k'] ==> k == k')
  }

  /** A mutex knows who runs under it and who waits for it, in order of arrival. */
  ghost predicate MutexOk(s: State, m: nat)
    requires m < |s.mutexes|
  {
    var Mutex(owner, queue) := s.mutexes[m];
    && (owner.Some? ==>
          owner.value < |s.requests| && s.requests[owner.value].mutex == m && s.requests[owner.value].phase == Running)
    && (owner.None? ==> queue == [])
    && (forall i :: 0 <= i < |queue| ==>
          queue[i] < |s.requests| && s.requests[queue[i]].mutex == m && s.requests[queue[i]].phase == Waiting)
    && (forall i, j :: 0 <= i < j < |queue| ==> queue[i] < queue[j])
  }

  /** A request uses the mutex of its key, and that mutex knows it. */
  ghost predicate RequestOk(s: State, r: nat)
    requires r < |s.requests|
  {
    var Request(key, m, phase) := s.requests[r];
    && key in s.registry && s.registry[key] == m && m < |s.mutexes|
    && (phase == Running ==> s.mutexes[m].owner == Some(r))
    && (phase == Waiting ==> r in s.mutexes[m].queue)
  }

  /** Nobody overtakes: once a request has the mutex, every earlier one of its key is finished. */
  ghost predicate InOrder(s: State) {
    forall r, r' ::
      0 <= r < r' < |s.requests| && s.requests[r].key == s.requests[r'].key && s.requests[r'].phase != Waiting
      ==> s.requests[r].phase == Finished
  }

  ghost predicate Inv(s: State) {
    && RegistryOk(s)
    && (forall m :: 0 <= m < |s.mutexes| ==> MutexOk(s, m))
    && (forall r :: 0 <= r < |s.requests| ==> RequestOk(s, r))
    && InOrder(s)
  }

  lemma {:induction false} GetOrCreateInv(s: State, key: MutexKey)
    requires Inv(s)
    ensures Inv(GetOrCreate(s, key))
    ensures key in GetOrCreate(s, key).registry && GetOrCreate(s, key).registry[key] < |GetOrCreate(s, key).mutexes|
    ensures forall k :: k in s.registry ==>
              k in GetOrCreate(s, key).registry && GetOrCreate(s, key).registry[k] == s.registry[k]
  {
    var s' := GetOrCreate(s, key);
    forall m | 0 <= m < |s'.mutexes| ensures MutexOk(s', m) {
      assert m < |s.mutexes| ==> MutexOk(s, m);
    }
    forall r | 0 <= r < |s'.requests| ensures RequestOk(s', r) {
      assert RequestOk(s, r);
    }
  }

  lemma {:induction false} AcquireInv(s: State, key: MutexKey)
    requires Inv(s) && key in s.registry && s.registry[key] < |s.mutexes|
    ensures Inv(Acquire(s, key))
  {
    var s', n, own := Acquire(s, key), |s.requests|, s.registry[key];
    forall m | 0 <= m < |s'.mutexes| ensures MutexOk(s', m) {
      assert MutexOk(s, m);
    }
    forall r | 0 <= r < |s'.requests| ensures RequestOk(s', r) {
      if r < n {
        assert RequestOk(s, r) && MutexOk(s, own);
      } else {
        var queue' := s'.mutexes[own].queue;
        assert s'.requests[n].phase == Waiting ==> queue'[|queue'| - 1] == n;
      }
    }
    if s'.requests[n].phase != Waiting {
      forall r | 0 <= r < n && s.requests[r].key == key ensures s.requests[r].phase == Finished {
        assert RequestOk(s, r) && MutexOk(s, own);
      }
    }
  }

  /** The queue's first request is the earliest unfinished one of its key once the owner is done. */
  lemma {:induction false} HeadIsNext(s: State, r: nat, q: nat)
    requires Inv(s) && r < |s.requests| && s.requests[r].phase == Running && s.requests[r].mutex < |s.mutexes|
    requires var queue := s.mutexes[s.requests[r].mutex].queue; queue != [] && q < queue[0]
    requires q < |s.requests| && q != r && s.requests[q].mutex == s.requests[r].mutex
    ensures s.requests[q].phase == Finished
  {
    assert RequestOk(s, r) && RequestOk(s, q) && MutexOk(s, s.requests[r].mutex);
  }

  lemma {:induction false} ReleaseOrder(s: State, r: nat)
    requires Inv(s)
    ensures InOrder(Release(s, r))
  {
    if r < |s.requests| && s.requests[r].phase.Running? {
      assert RequestOk(s, r) && MutexOk(s, s.requests[r].mutex);
      var s', queue := Release(s, r), s.mutexes[s.requests[r].mutex].queue;
      if queue != [] {
        forall q | 0 <= q < queue[0] && s.requests[q].key == s.requests[queue[0]].key
          ensures s'.requests[q].phase == Finished
        {
          assert RequestOk(s, q) && RequestOk(s, queue[0]);
          if q != r {
            HeadIsNext(s, r, q);
          }
        }
      }
    }
  }

  lemma {:induction false} ReleaseMutex(s: State, r: nat, m: nat)
    requires Inv(s) && m < |s.mutexes|
    ensures MutexOk(Release(s, r), m)
  {
    assert MutexOk(s, m);
    if r < |s.requests| && s.requests[r].phase.Running? {
      var own := s.requests[r].mutex;
      assert RequestOk(s, r) && MutexOk(s, own);
      var queue := s.mutexes[own].queue;
      if m != own {
        assert queue != [] ==> s.requests[queue[0]].mutex == own;
        assert Release(s, r).mutexes[m] == s.mutexes[m];
      }
    }
  }

  lemma {:induction false} ReleaseRequest(s: State, r: nat, q: nat)
    requires Inv(s) && q < |s.requests|
    ensures RequestOk(Release(s, r), q)
  {
    assert RequestOk(s, q);
    if r < |s.requests| && s.requests[r].phase.Running? {
      var m := s.requests[r].mutex;
      assert RequestOk(s, r) && MutexOk(s, m);
      var queue := s.mutexes[m].queue;
      if queue != [] {
        assert queue == [queue[0]] + queue[1..];
      }
    }
  }

  /** Every step keeps the invariant, and no step ever replaces the mutex of a key. */
  lemma {:induction false} StepKeepsInv(s: State, e: Event)
    requires Inv(s)
    ensures Inv(Step(s, e))
    ensures forall k :: k in s.registry ==> k in Step(s, e).registry && Step(s, e).registry[k] == s.registry[k]
  {
    match e
    case Arrive(key) =>
      GetOrCreateInv(s, key);
      AcquireInv(GetOrCreate(s, key), key);
    case Respond(r) =>
      ReleaseKeepsInv(s, r);
    case Fail(r) =>
      ReleaseKeepsInv(s, r);
  }

  lemma {:induction false} ReleaseKeepsInv(s: State, r: nat)
    requires Inv(s)
    ensures Inv(Release(s, r))
  {
    ReleaseOrder(s, r);
    forall m | 0 <= m < |s.mutexes| ensures MutexOk(Release(s, r), m) {
      ReleaseMutex(s, r, m);
    }
    forall q | 0 <= q < |s.requests| ensures RequestOk(Release(s, r), q) {
      ReleaseRequest(s, r, q);
    }
  }

  // ---------- every run ----------

  const START := State(map[], [], [])

  ghost function Run(events: seq<Event>): (s: State)
    ensures Inv(s)
  {
    if events == [] then START
    else
      StepKeepsInv(Run(events[..|events| - 1]), events[|events| - 1]);
      Step(Run(events[..|events| - 1]), events[|events| - 1])
  }

  /** At most one request of a key is between acquire and release; equal keys share one mutex, different keys
      never do; a waiting request has a runner before it, and the earlier request always goes first. */
  lemma {:induction false} MutualExclusion(events: seq<Event>, r: nat, r': nat)
    requires r < r' < |Run(events).requests|
    ensures var a, b := Run(events).requests[r], Run(events).requests[r'];
            && (a.key == b.key <==> a.mutex == b.mutex)
            && (a.key == b.key ==> !(a.phase == Running && b.phase == Running))
            && (a.key == b.key && b.phase != Waiting ==> a.phase == Finished)
  {
    var s := Run(events);
    assert RequestOk(s, r) && RequestOk(s, r');
  }

  lemma {:induction false} WaitingBehindRunner(events: seq<Event>, r: nat)
    requires r < |Run(events).requests| && Run(events).requests[r].phase == Waiting
    ensures exists q ::
              0 <= q < r && Run(events).requests[q].key == Run(events).requests[r].key
                && Run(events).requests[q].phase == Running
  {
    var s := Run(events);
    assert RequestOk(s, r) && MutexOk(s, s.requests[r].mutex);
    var q := s.mutexes[s.requests[r].mutex].owner.value;
    assert RequestOk(s, q);
  }

  /** How often a request's releaser has freed a mutex. */
  ghost function Releases(events: seq<Event>, r: nat): nat {
    if events == [] then 0
    else
      var before, e := events[..|events| - 1], events[|events| - 1];
      var s := Run(before);
      Releases(before, r)
        + (if e in {Respond(r), Fail(r)} && r < |s.requests| && s.requests[r].phase == Running then 1 else 0)
  }

  lemma {:induction false} FinishedAfter(s: State, x: nat, r: nat)
    requires Inv(s) && r < |s.requests|
    ensures Release(s, x).requests[r].phase == Finished
            <==> s.requests[r].phase == Finished || (r == x && s.requests[r].phase == Running)
  {
    if x < |s.requests| && s.requests[x].phase.Running? {
      assert RequestOk(s, x) && MutexOk(s, s.requests[x].mutex);
    }
  }

  /** A request releases exactly once, however often its response and its error call the releaser. */
  lemma {:induction false} ReleasesOnce(events: seq<Event>, r: nat)
    ensures Releases(events, r) == if r < |Run(events).requests| && Run(events).requests[r].phase == Finished then 1
            else 0
  {
    if events != [] {
      var before, e := events[..|events| - 1], events[|events| - 1];
      ReleasesOnce(before, r);
      if !e.Arrive? && r < |Run(before).requests| {
        FinishedAfter(Run(before), if e.Respond? then e.request else e.failed, r);
      }
    }
  }

  // ---------- the service ----------

  class MutexService {
    var mutexes: map<MutexKey, nat>
    var created: nat

    constructor ()
      ensures mutexes == map[] && created == 0
    {
      mutexes, created := map[], 0;
    }

    method Set(key: MutexKey) returns (mutex: nat)
      modifies this
      ensures mutex == old(created) && created == old(created) + 1
      ensures mutexes == old(mutexes)[key := mutex]
    {
      mutex := created;
      created := created + 1;
      mutexes := mutexes[key := mutex];
    }

    method Get(key: MutexKey) returns (mutex: Option<nat>)
      ensures mutex == if key in mutexes then Some(mutexes[key]) else None
    {
      mutex := if key in mutexes then Some(mutexes[key]) else None;
    }

    /** The interceptor's lookup: a present entry is returned as it is. */
    method GetOrSet(key: MutexKey) returns (mutex: nat)
      modifies this
      ensures key in mutexes && mutexes[key] == mutex
      ensures forall s: State :: s.registry == old(mutexes) && |s.mutexes| == old(created) ==>
                GetOrCreate(s, key).registry == mutexes && |GetOrCreate(s, key).mutexes| == created
    {
      var found := Get(key);
      if found.None? {
        mutex := Set(key);
      } else {
        mutex := found.value;
      }
    }
  }
}

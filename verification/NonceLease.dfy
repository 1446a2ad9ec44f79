/** Durable nonce accounts: getNonce as interleaved steps, and the releases that may free an account. */
module NonceLease {
  import opened Wrappers

  datatype Status = Available | InUse

  const MAX_DEPTH := 6

  /** Where a caller of getNonce stands. */
  datatype Phase =
    | Searching(depth: nat)
    | Found(depth: nat, address: string)
    | Holding(address: string)
    | Done

  datatype State = State(rows: map<string, Status>, callers: map<nat, Phase>)

  /** Callers interleave in any order. `address` of a Find is the row findFirst happens to return. */
  datatype Event =
    | Begin(caller: nat)
    | Find(caller: nat, address: string)
    | Update(caller: nat, lostThrows: bool)
    | Finish(caller: nat)
    | Force(freed: string)

  predicate Free(rows: map<string, Status>, a: string) {
    a in rows && rows[a] == Available
  }

  /** The conditional update, and what the caller makes of it: losing the race throws, or returns nothing and is
      tried again one deeper; at the last depth the result is dropped even when the update went through. */
  function AfterUpdate(depth: nat, a: string, won: bool, lostThrows: bool): Phase {
    if !won && lostThrows then Done
    else if depth == MAX_DEPTH then Done
    else if !won then Searching(depth + 1)
    else Holding(a)
  }

  function MarkInUse(rows: map<string, Status>, a: string): map<string, Status> {
    if Free(rows, a) then rows[a := InUse] else rows
  }

  function Step(s: State, e: Event): State {
    match e
    case Begin(c) => if c in s.callers then s else s.(callers := s.callers[c := Searching(0)])
    case Find(c, a) =>
      if c !in s.callers || !s.callers[c].Searching? then s
      else if Free(s.rows, a) then s.(callers := s.callers[c := Found(s.callers[c].depth, a)])
      else if forall b :: b in s.rows ==> s.rows[b] == InUse then s.(callers := s.callers[c := Done])
      else s
    case Update(c, lostThrows) =>
      if c !in s.callers || !s.callers[c].Found? then s
      else
        var Found(depth, a) := s.callers[c];
        State(MarkInUse(s.rows, a), s.callers[c := AfterUpdate(depth, a, Free(s.rows, a), lostThrows)])
    case Finish(c) =>
      if c !in s.callers || !s.callers[c].Holding? then s
      else
        var a := s.callers[c].address;
        State(if a in s.rows then s.rows[a := Available] else s.rows, s.callers[c := Done])
    case Force(a) => if a in s.rows then s.(rows := s.rows[a := Available]) else s
  }

  function Run(s: State, events: seq<Event>): State {
    if events == [] then s else Step(Run(s, events[..|events| - 1]), events[|events| - 1])
  }

  predicate Holds(s: State, c: nat, a: string) {
    c in s.callers && s.callers[c] == Holding(a)
  }

  predicate IsHeld(s: State, a: string) {
    exists c :: c in s.callers && Holds(s, c, a)
  }

  // ---------- mutual exclusion ----------

  /** No account is held twice, a held account is marked, and nobody searches deeper than the last depth. */
  ghost predicate Inv(s: State) {
    && (forall c, a :: Holds(s, c, a) ==> a in s.rows && s.rows[a] == InUse)
    && (forall c, c', a :: Holds(s, c, a) && Holds(s, c', a) ==> c == c')
    && (forall c :: c in s.callers && s.callers[c].Searching? ==> s.callers[c].depth <= MAX_DEPTH)
    && (forall c :: c in s.callers && s.callers[c].Found? ==> s.callers[c].depth <= MAX_DEPTH)
  }

  /** Every step keeps it, whoever moves; a forced release keeps it exactly when nobody holds the account. */
  lemma {:induction false} StepKeepsInv(s: State, e: Event)
    requires Inv(s)
    ensures Inv(Step(s, e)) <==> !(e.Force? && IsHeld(s, e.freed))
  {
    var after := Step(s, e);
    if e.Force? && IsHeld(s, e.freed) {
      var c :| c in s.callers && Holds(s, c, e.freed);
      assert Holds(after, c, e.freed);
    } else {
      forall c, a | Holds(after, c, a) ensures a in after.rows && after.rows[a] == InUse {
        if Holds(s, c, a) {
          assert IsHeld(s, a);
          if e.Finish? && e.caller in s.callers && s.callers[e.caller].Holding? {
            assert Holds(s, e.caller, s.callers[e.caller].address);
          }
        }
      }
      forall c, c', a | Holds(after, c, a) && Holds(after, c', a) ensures c == c' {
        assert !Holds(s, c, a) ==> e == Update(c, e.lostThrows);
        assert !Holds(s, c', a) ==> e == Update(c', e.lostThrows);
      }
    }
  }

  // ---------- what becomes of the accounts ----------

  function AvailableSet(s: State): set<string> {
    set a | a in s.rows && s.rows[a] == Available
  }

  function HeldSet(s: State): set<string> {
    set a | a in s.rows && s.rows[a] == InUse && IsHeld(s, a)
  }

  function AbandonedSet(s: State): set<string> {
    set a | a in s.rows && s.rows[a] == InUse && !IsHeld(s, a)
  }

  /** The update of a caller at the last depth goes through. */
  predicate Abandons(s: State, e: Event, a: string) {
    e.Update? && e.caller in s.callers && s.callers[e.caller] == Found(MAX_DEPTH, a) && Free(s.rows, a)
  }

  /** The accounts split into available, held and abandoned ones; the rows never come or go. */
  lemma {:induction false} Partition(s: State, e: Event)
    requires Inv(s)
    ensures AvailableSet(s) + HeldSet(s) + AbandonedSet(s) == s.rows.Keys
    ensures AvailableSet(s) !! HeldSet(s) !! AbandonedSet(s)
    ensures forall a :: IsHeld(s, a) <==> a in HeldSet(s)
    ensures Step(s, e).rows.Keys == s.rows.Keys
  {
    forall a | IsHeld(s, a) ensures a in HeldSet(s) {
      var c :| c in s.callers && Holds(s, c, a);
    }
  }

  /** An account is newly abandoned exactly when the update at the last depth marks it. */
  lemma {:induction false} OnlyLastDepthAbandons(s: State, e: Event, a: string)
    requires Inv(s) && a !in AbandonedSet(s)
    ensures a in AbandonedSet(Step(s, e)) <==> Abandons(s, e, a)
  {
    var after := Step(s, e);
    if IsHeld(s, a) {
      var c :| c in s.callers && Holds(s, c, a);
      assert Holds(after, c, a) || e == Finish(c);
    } else if e.Update? && e.caller in s.callers && s.callers[e.caller].Found? && s.callers[e.caller].address == a
      && Free(s.rows, a) {
      assert Holds(after, e.caller, a) <==> s.callers[e.caller].depth != MAX_DEPTH;
      if Abandons(s, e, a) {
        forall c | c in after.callers ensures !Holds(after, c, a) {
          assert c != e.caller ==> !Holds(s, c, a);
        }
      }
    }
  }

  /** No release is forced on an account that somebody holds. */
  ghost predicate Orderly(s: State, events: seq<Event>) {
    events == [] ||
    (Orderly(s, events[..|events| - 1])
      && var e := events[|events| - 1]; !(e.Force? && IsHeld(Run(s, events[..|events| - 1]), e.freed)))
  }

  /** In every interleaving without such a release no account is leased twice. */
  lemma {:induction false} NeverLeasedTwice(s: State, events: seq<Event>, a: string, c: nat, c': nat)
    requires Inv(s) && Orderly(s, events)
    ensures Inv(Run(s, events))
    ensures Holds(Run(s, events), c, a) && Holds(Run(s, events), c', a) ==> c == c'
  {
    if events != [] {
      NeverLeasedTwice(s, events[..|events| - 1], a, c, c');
      StepKeepsInv(Run(s, events[..|events| - 1]), events[|events| - 1]);
    }
  }

  /** The account of a holder is freed by a webhook or the update tool, and another caller gets it too. */
  lemma {:induction false} ForcedReleaseLeasesTwice(a: string)
    ensures var s := State(map[a := Available], map[]);
            var events := [Begin(0), Find(0, a), Update(0, false), Force(a), Begin(1), Find(1, a), Update(1, false)];
            Inv(s) && Holds(Run(s, events), 0, a) && Holds(Run(s, events), 1, a)
  {
    var s := State(map[a := Available], map[]);
    var first, second := [Begin(0), Find(0, a), Update(0, false)], [Force(a), Begin(1), Find(1, a), Update(1, false)];
    FirstLease(a);
    SecondLease(a);
    RunOn(s, first, second);
    assert first + second == [Begin(0), Find(0, a), Update(0, false), Force(a), Begin(1), Find(1, a), Update(1, false)];
  }

  lemma {:induction false} FirstLease(a: string)
    ensures Run(State(map[a := Available], map[]), [Begin(0), Find(0, a), Update(0, false)])
            == State(map[a := InUse], map[0 := Holding(a)])
  {
    var s := State(map[a := Available], map[]);
    var events := [Begin(0), Find(0, a), Update(0, false)];
    assert events[..0] == [];
    assert events[..1][..0] == events[..0] && events[..2][..1] == events[..1] && events[..3] == events;
    assert Run(s, events[..1]) == State(map[a := Available], map[0 := Searching(0)]);
    assert Run(s, events[..2]) == State(map[a := Available], map[0 := Found(0, a)]);
  }

  lemma {:induction false} SecondLease(a: string)
    ensures Run(State(map[a := InUse], map[0 := Holding(a)]), [Force(a), Begin(1), Find(1, a), Update(1, false)])
         == State(map[a := InUse], map[0 := Holding(a), 1 := Holding(a)])
  {
    var s := State(map[a := InUse], map[0 := Holding(a)]);
    var events := [Force(a), Begin(1), Find(1, a), Update(1, false)];
    assert events[..0] == [];
    assert events[..1][..0] == events[..0] && events[..2][..1] == events[..1] && events[..3][..2] == events[..2]
           && events[..4] == events;
    assert Run(s, events[..1]) == State(map[a := Available], map[0 := Holding(a)]);
    assert Run(s, events[..2]) == State(map[a := Available], map[0 := Holding(a), 1 := Searching(0)]);
    assert Run(s, events[..3]) == State(map[a := Available], map[0 := Holding(a), 1 := Found(0, a)]);
  }

  lemma {:induction false} RunOn(s: State, first: seq<Event>, more: seq<Event>)
    ensures Run(s, first + more) == Run(Run(s, first), more)
  {
    if more == [] {
      assert first + more == first;
    } else {
      RunOn(s, first, more[..|more| - 1]);
      assert (first + more)[..|first + more| - 1] == first + more[..|more| - 1];
    }
  }

  // ---------- a lease and its end ----------

  /** What one update does: a free row is marked, and its finder holds it unless this was attempt 7; a row that was
      marked meanwhile stays, and its finder throws, searches again, or gives up after attempt 7. Nobody else moves. */
  lemma {:induction false} UpdateExactly(s: State, c: nat, depth: nat, a: string, lostThrows: bool)
    requires c in s.callers && s.callers[c] == Found(depth, a)
    ensures var after := Step(s, Update(c, lostThrows));
            && after.callers.Keys == s.callers.Keys && (forall d :: d in s.callers && d != c ==>
                  after.callers[d] == s.callers[d])
            && (if a in s.rows && s.rows[a] == Available
                then after.rows == s.rows[a := InUse] && after.callers[c] == (if depth == 6 then Done else Holding(a))
                else after.rows == s.rows
                     && after.callers[c] == (if lostThrows || depth == 6 then Done else Searching(depth + 1)))
  {}

  /** A new caller that finds a free account and meets no rival holds it; when it is done with it, the table is
      what it was. */
  lemma {:induction false} LeaseRoundTrip(s: State, c: nat, a: string, lostThrows: bool)
    requires c !in s.callers && a in s.rows && s.rows[a] == Available
    ensures var held := Run(s, [Begin(c), Find(c, a), Update(c, lostThrows)]);
            && held == State(s.rows[a := InUse], s.callers[c := Holding(a)])
            && Run(held, [Finish(c)]) == State(s.rows, s.callers[c := Done])
  {
    var events := [Begin(c), Find(c, a), Update(c, lostThrows)];
    assert events[..0] == [];
    assert events[..1][..0] == events[..0] && events[..2][..1] == events[..1] && events[..3] == events;
    assert Run(s, events[..1]) == State(s.rows, s.callers[c := Searching(0)]);
    assert Run(s, events[..2]) == State(s.rows, s.callers[c := Found(0, a)]);
    var held := State(s.rows[a := InUse], s.callers[c := Holding(a)]);
    assert Run(s, events[..3]) == held;
    assert [Finish(c)][..0] == [];
    assert s.rows[a := InUse][a := Available] == s.rows;
    assert Run(held, [Finish(c)]) == State(s.rows, s.callers[c := Done]);
  }

  /** A caller gives up its search exactly when no account is available. */
  lemma {:induction false} SearchExactly(s: State, c: nat, depth: nat, a: string)
    requires c in s.callers && s.callers[c] == Searching(depth)
    ensures var after := Step(s, Find(c, a));
            && after.rows == s.rows
            && (after.callers[c] == Done <==> forall b :: b in s.rows ==> s.rows[b] == InUse)
            && (after.callers[c] == Found(depth, a) <==> a in s.rows && s.rows[a] == Available)
  {}

  // ---------- attempts ----------

  /** How often a caller has got as far as the conditional update. */
  function Attempts(s: State, events: seq<Event>, c: nat): nat {
    if events == [] then 0
    else
      var before := Run(s, events[..|events| - 1]);
      Attempts(s, events[..|events| - 1], c)
      + (if events[|events| - 1].Update? && events[|events| - 1].caller == c && c in before.callers
        && before.callers[c].Found? then 1 else 0)
  }

  lemma {:induction false} AttemptsByDepth(s: State, events: seq<Event>, c: nat)
    requires Inv(s) && Orderly(s, events) && c !in s.callers
    ensures var p := Run(s, events).callers;
            && (c !in p ==> Attempts(s, events, c) == 0)
            && (c in p && p[c].Searching? ==> Attempts(s, events, c) == p[c].depth)
            && (c in p && p[c].Found? ==> Attempts(s, events, c) == p[c].depth)
            && Attempts(s, events, c) <= 7
  {
    if events != [] {
      var before := events[..|events| - 1];
      AttemptsByDepth(s, before, c);
      NeverLeasedTwice(s, before, "", 0, 0);
    }
  }

  // ---------- the table ----------

  class NonceTable {
    var rows: map<string, Status>

    constructor (initial: map<string, Status>)
      ensures rows == initial
    {
      rows := initial;
    }

    /** findFirst: some available row, if there is one. */
    method FindFirst() returns (found: Option<string>)
      ensures found.Some? ==> Free(rows, found.value)
      ensures found.None? ==> forall a :: a in rows ==> rows[a] == InUse
    {
      var left := rows.Keys;
      while left != {}
        invariant left <= rows.Keys
        invariant forall a :: a in rows && a !in left ==> rows[a] == InUse
        decreases |left|
      {
        var a :| a in left;
        if rows[a] == Available {
          return Some(a);
        }
        left := left - {a};
      }
      found := None;
    }

    method UpdateStatus(a: string) returns (won: bool)
      modifies this
      ensures won == Free(old(rows), a)
      ensures rows == MarkInUse(old(rows), a)
    {
      won := a in rows && rows[a] == Available;
      if won {
        rows := rows[a := InUse];
      }
    }

    /** One caller's getNonce; `rivals` are the rows that other callers mark between its search and its update,
        attempt by attempt, and `lostThrows` is whether an update that lost its row throws. It returns an account
        that was available and is now marked, after at most MAX_DEPTH + 1 attempts; a row marked for nobody is
        possible only at the last of them. */
    method GetNonce(depth: nat, rivals: seq<set<string>>, lostThrows: bool)
      returns (nonce: Option<string>, marked: Option<string>, attempts: nat, threw: bool)
      requires depth <= MAX_DEPTH && |rivals| > MAX_DEPTH
      modifies this
      ensures rows.Keys == old(rows).Keys
      ensures nonce.Some? ==> marked == nonce && !threw
      ensures marked.Some? ==> Free(old(rows), marked.value) && rows[marked.value] == InUse
      ensures attempts <= 7 - depth
      ensures nonce.None? && marked.Some? ==> attempts == 7 - depth
      ensures attempts == 0 <==> forall a :: a in old(rows) ==> old(rows)[a] == InUse
      ensures attempts == 1 && depth < 6 && marked.Some? ==> nonce == marked
      ensures attempts > 0 && nonce.None? && !threw && attempts < 7 - depth ==>
                forall a :: a in rows ==> rows[a] == InUse
      ensures attempts > 0 && marked.None? ==>
                exists a :: Free(old(rows), a) && a in rivals[depth + attempts - 1]
      ensures threw ==> lostThrows && marked.None?
      ensures lostThrows ==> attempts <= 1 && (threw || nonce.Some? || attempts == 0 || depth == MAX_DEPTH)
      ensures forall a :: a in rows ==>
                (rows[a] == InUse <==> old(rows)[a] == InUse || marked == Some(a)
                                       || exists k :: depth <= k < depth + attempts && a in rivals[k])
      ensures marked.Some? ==> !exists k :: depth <= k < depth + attempts && marked.value in rivals[k]
      decreases MAX_DEPTH - depth
    {
      var found := FindFirst();
      if found.None? {
        return None, None, 0, false;
      }
      rows := map a | a in rows :: if a in rivals[depth] then InUse else rows[a];
      var won := UpdateStatus(found.value);
      if !won && lostThrows {
        return None, None, 1, true;
      }
      if depth == MAX_DEPTH {
        return None, if won then found else None, 1, false;
      }
      if !won {
        assert Free(old(rows), found.value) && found.value in rivals[depth];
        assert forall a :: Free(rows, a) ==> Free(old(rows), a);
        nonce, marked, attempts, threw := GetNonce(depth + 1, rivals, lostThrows);
        attempts := attempts + 1;
        return;
      }
      return found, found, 1, false;
    }
  }
}

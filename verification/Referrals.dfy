/** Referrals: redeeming, verifying and changing an email, as atomic steps on the user rows. */
module Referrals {
  import opened Wrappers

  /** The referral columns of a user; `completed` is whether the completion date is set. */
  datatype User = User(remaining: int, referrer: Option<nat>, referred: bool, verified: bool, completed: bool)

  datatype Outcome = Done | Logged | Refused

  type Users = map<nat, User>

  /** The two row updates of one redemption. */
  function Redeemed(users: Users, r: nat, referee: nat): Users
    requires r in users && referee in users
  {
    var referred := users[referee := users[referee].(referred := true, referrer := Some(r))];
    referred[r := users[r].(remaining := users[r].remaining - 1)]
  }

  /** `referrer` is whom the referral name finds, None when it is missing or unknown. */
  function Redeem(users: Users, referrer: Option<nat>, referee: nat): (Outcome, Users) {
    if referrer.None? || referrer.value !in users then (Logged, users)
    else
      var r := referrer.value;
      if users[r].remaining == 0 then (Logged, users)
      else if r == referee then (Refused, users)
      else if referee !in users || users[referee].referred then (Refused, users)
      else (Done, Redeemed(users, r, referee))
  }

  /** `newEmail`: the token carries another address than the stored one; `taken`: somebody has that address. */
  function Verify(users: Users, id: nat, newEmail: bool, taken: bool): (Outcome, Users) {
    if id !in users then (Refused, users)
    else if newEmail && taken then (Refused, users)
    else if !newEmail && users[id].verified then (Refused, users)
    else (Done, users[id := users[id].(verified := true, completed := users[id].referred)])
  }

  /** Changing the email drops the verification; the completion date stays. */
  function ChangeEmail(users: Users, id: nat): (Outcome, Users) {
    if id !in users then (Refused, users)
    else (Done, users[id := users[id].(verified := false)])
  }

  /** A new user has no referrals to give; with an external login the email counts as verified. */
  function Register(users: Users, id: nat, external: bool): (Outcome, Users) {
    if id in users then (Refused, users)
    else (Done, users[id := User(0, None, false, external, false)])
  }

  datatype Op =
    | OpRegister(newId: nat, external: bool)
    | OpRedeem(referrer: Option<nat>, referee: nat)
    | OpVerify(id: nat, newEmail: bool, taken: bool)
    | OpChangeEmail(changed: nat)

  function Step(users: Users, op: Op): Users {
    match op
    case OpRegister(id, external) => Register(users, id, external).1
    case OpRedeem(referrer, referee) => Redeem(users, referrer, referee).1
    case OpVerify(id, newEmail, taken) => Verify(users, id, newEmail, taken).1
    case OpChangeEmail(id) => ChangeEmail(users, id).1
  }

  function Run(users: Users, ops: seq<Op>): Users {
    if ops == [] then users else Step(Run(users, ops[..|ops| - 1]), ops[|ops| - 1])
  }

  // ---------- each step, column by column ----------

  ghost predicate OthersStay(before: Users, after: Users, changed: set<nat>) {
    forall v :: v !in changed ==> (v in after <==> v in before) && (v in before ==> after[v] == before[v])
  }

  /** A referral is redeemed exactly when the referrer exists, has one left and is not the referee, and the referee
      exists and was never referred; the two rows change in three columns. Else nothing happens: what is wrong with
      the referrer is logged, what is wrong with the referee is refused. */
  lemma {:induction false} RedeemExactly(users: Users, referrer: Option<nat>, referee: nat)
    ensures var (outcome, after) := Redeem(users, referrer, referee);
            && (outcome == Done
                <==> referrer.Some? && referrer.value in users && users[referrer.value].remaining != 0
                     && referrer.value != referee && referee in users && !users[referee].referred)
            && (outcome == Logged
                <==> referrer.None? || referrer.value !in users || users[referrer.value].remaining == 0)
            && (outcome != Done ==> after == users)
            && (outcome == Done ==>
                  && OthersStay(users, after, {referee, referrer.value})
                  && after[referee] == User(users[referee].remaining, referrer, true, users[referee].verified,
                                            users[referee].completed)
                  && after[referrer.value] == users[referrer.value].(remaining := users[referrer.value].remaining - 1))
  {}

  /** A token is accepted for a known user, with a new address that is free or with an address not verified yet; it
      verifies the email, and completes the referral of who is referred. */
  lemma {:induction false} VerifyExactly(users: Users, id: nat, newEmail: bool, taken: bool)
    ensures var (outcome, after) := Verify(users, id, newEmail, taken);
            && (outcome == Done <==> id in users && (if newEmail then !taken else !users[id].verified))
            && (outcome != Done ==> after == users)
            && (outcome == Done ==>
                  && OthersStay(users, after, {id})
                  && after[id] == User(users[id].remaining, users[id].referrer, users[id].referred, true,
                                       users[id].referred))
  {}

  /** A changed email is not verified; a new user has no referral to give and none behind them. */
  lemma {:induction false} ProfileExactly(users: Users, id: nat, external: bool)
    ensures id in users ==>
              && ChangeEmail(users, id).0 == Done
              && OthersStay(users, ChangeEmail(users, id).1, {id})
              && ChangeEmail(users, id).1[id] == User(users[id].remaining, users[id].referrer, users[id].referred,
                                                      false, users[id].completed)
    ensures id !in users ==>
              && Register(users, id, external).0 == Done
              && OthersStay(users, Register(users, id, external).1, {id})
              && id in Register(users, id, external).1
              && Register(users, id, external).1[id] == User(0, None, false, external, false)
  {}

  /** The operation redeems `r`'s referral for `u`. */
  predicate Refers(users: Users, op: Op, r: nat, u: nat) {
    && op == OpRedeem(Some(r), u) && r in users && users[r].remaining != 0 && r != u
    && u in users && !users[u].referred
  }

  predicate RefersAt(users: Users, ops: seq<Op>, k: nat, r: nat, u: nat) {
    k < |ops| && Refers(Run(users, ops[..k]), ops[k], r, u)
  }

  lemma {:induction false} StepRefers(users: Users, op: Op, u: nat, r: nat)
    requires u in users
    ensures u in Step(users, op)
    ensures Step(users, op)[u].referred && Step(users, op)[u].referrer == Some(r)
            <==> (users[u].referred && users[u].referrer == Some(r)) || Refers(users, op, r, u)
  {}

  /** In every run: a user who was not referred before is referred by `r` exactly when some operation redeemed a
      referral of `r` for them at a moment when it could. */
  lemma {:induction false} ReferredExactly(users: Users, ops: seq<Op>, u: nat, r: nat)
    requires u in users && !users[u].referred
    ensures u in Run(users, ops)
    ensures Run(users, ops)[u].referred && Run(users, ops)[u].referrer == Some(r)
            <==> exists k: nat :: RefersAt(users, ops, k, r, u)
  {
    if ops != [] {
      var n := |ops| - 1;
      var before := ops[..n];
      ReferredExactly(users, before, u, r);
      StepRefers(Run(users, before), ops[n], u, r);
      forall k: nat | k < n ensures RefersAt(users, ops, k, r, u) <==> RefersAt(users, before, k, r, u) {
        assert before[..k] == ops[..k];
      }
      assert RefersAt(users, ops, n, r, u) <==> Refers(Run(users, before), ops[n], r, u);
    }
  }

  // ---------- conservation ----------

  /** The users a user has referred; countReferralUsed is their number. */
  function Referees(users: Users, u: nat): set<nat> {
    set v | v in users && users[v].referrer == Some(u)
  }

  function QuotaOf(quota: map<nat, nat>, u: nat): nat {
    if u in quota then quota[u] else 0
  }

  /** A user's remaining and used referrals make up the quota. */
  ghost predicate Balanced(users: Users, quota: map<nat, nat>, u: nat)
    requires u in users
  {
    users[u].remaining >= 0 && users[u].remaining + |Referees(users, u)| == QuotaOf(quota, u)
  }

  /** Nobody refers themselves; who is referred has a referrer, and only who is referred has completed. */
  ghost predicate WellReferred(users: Users, u: nat)
    requires u in users
  {
    && (users[u].referred <==> users[u].referrer.Some?)
    && (users[u].referrer.Some? ==> users[u].referrer.value in users && users[u].referrer != Some(u))
    && (users[u].completed ==> users[u].referred)
  }

  ghost predicate Inv(users: Users, quota: map<nat, nat>) {
    && (forall u :: u in users ==> Balanced(users, quota, u))
    && (forall u :: u in users ==> WellReferred(users, u))
  }

  lemma {:induction false} RedeemedReferees(users: Users, r: nat, referee: nat, u: nat)
    requires r in users && referee in users && r != referee && users[referee].referrer.None?
    ensures Referees(Redeemed(users, r, referee), u) == if u == r then Referees(users, r) + {referee}
            else Referees(users, u)
  {}

  lemma {:induction false} RedeemedCount(users: Users, r: nat, referee: nat, u: nat)
    requires r in users && referee in users && r != referee && users[referee].referrer.None?
    ensures |Referees(Redeemed(users, r, referee), u)| == |Referees(users, u)| + (if u == r then 1 else 0)
  {
    RedeemedReferees(users, r, referee, u);
    var before := Referees(users, r);
    assert referee !in before;
    assert |before + {referee}| == |before| + 1;
  }

  lemma {:induction false} RedeemBalances(users: Users, quota: map<nat, nat>, r: nat, referee: nat, u: nat)
    requires r in users && referee in users && r != referee && users[referee].referrer.None? && users[r].remaining != 0
    requires u in users && Balanced(users, quota, u)
    ensures Balanced(Redeemed(users, r, referee), quota, u)
  {
    RedeemedCount(users, r, referee, u);
  }

  lemma {:induction false} RedeemKeepsInv(users: Users, quota: map<nat, nat>, referrer: Option<nat>, referee: nat)
    requires Inv(users, quota)
    ensures Inv(Redeem(users, referrer, referee).1, quota)
  {
    var (outcome, after) := Redeem(users, referrer, referee);
    if outcome == Done {
      assert WellReferred(users, referee);
      forall u | u in after ensures Balanced(after, quota, u) {
        assert Balanced(users, quota, u);
        RedeemBalances(users, quota, referrer.value, referee, u);
      }
      forall u | u in after ensures WellReferred(after, u) {
        assert WellReferred(users, u);
      }
    }
  }

  lemma {:induction false} SameReferees(users: Users, id: nat, user: User, u: nat)
    requires (id in users && user.referrer == users[id].referrer) || (id !in users && user.referrer == None)
    ensures Referees(users[id := user], u) == Referees(users, u)
  {}

  /** Updating or adding one row without touching its referrer and its quota. */
  lemma {:induction false} RowKeepsInv(users: Users, quota: map<nat, nat>, id: nat, user: User)
    requires Inv(users, quota) && quota.Keys <= users.Keys
    requires if id in users then user.referrer == users[id].referrer && user.remaining == users[id].remaining
             && user.referred == users[id].referred
             else user == User(0, None, false, user.verified, false)
    requires user.completed ==> user.referred
    ensures Inv(users[id := user], quota)
  {
    var after := users[id := user];
    forall u | u in after ensures Balanced(after, quota, u) {
      SameReferees(users, id, user, u);
      if u in users {
        assert Balanced(users, quota, u);
      } else {
        forall v | v in users ensures users[v].referrer != Some(id) {
          assert WellReferred(users, v);
        }
        assert Referees(users, id) == {};
      }
    }
    forall u | u in after ensures WellReferred(after, u) {
      assert u in users ==> WellReferred(users, u);
    }
  }

  /** Every step keeps it; a new id has no quota and nobody points at it yet. */
  lemma {:induction false} StepKeepsInv(users: Users, quota: map<nat, nat>, op: Op)
    requires Inv(users, quota) && quota.Keys <= users.Keys
    ensures Inv(Step(users, op), quota) && quota.Keys <= Step(users, op).Keys
  {
    match op
    case OpRedeem(referrer, referee) => RedeemKeepsInv(users, quota, referrer, referee);
    case OpRegister(id, external) =>
      if id !in users {
        RowKeepsInv(users, quota, id, User(0, None, false, external, false));
      }
    case OpVerify(id, newEmail, taken) =>
      if Verify(users, id, newEmail, taken).0 == Done {
        RowKeepsInv(users, quota, id, users[id].(verified := true, completed := users[id].referred));
      }
    case OpChangeEmail(id) =>
      if id in users {
        assert WellReferred(users, id);
        RowKeepsInv(users, quota, id, users[id].(verified := false));
      }
  }

  /** Over any run: remaining plus used referrals stay the initial quota, none goes below zero. */
  lemma {:induction false} ReferralsConserved(users: Users, quota: map<nat, nat>, ops: seq<Op>)
    requires Inv(users, quota) && quota.Keys <= users.Keys
    ensures Inv(Run(users, ops), quota) && quota.Keys <= Run(users, ops).Keys
  {
    if ops != [] {
      ReferralsConserved(users, quota, ops[..|ops| - 1]);
      StepKeepsInv(Run(users, ops[..|ops| - 1]), quota, ops[|ops| - 1]);
    }
  }

  lemma {:induction false} StepKeepsReferrer(users: Users, op: Op, u: nat)
    requires u in users && users[u].referrer.Some? && users[u].referred
    ensures u in Step(users, op) && Step(users, op)[u].referrer == users[u].referrer && Step(users, op)[u].referred
  {}

  /** Nobody is referred twice: the first referrer stays, in every run. */
  lemma {:induction false} ReferrerStays(users: Users, ops: seq<Op>, u: nat)
    requires u in users && users[u].referrer.Some? && users[u].referred
    ensures u in Run(users, ops) && Run(users, ops)[u].referrer == users[u].referrer && Run(users, ops)[u].referred
  {
    if ops != [] {
      ReferrerStays(users, ops[..|ops| - 1], u);
      StepKeepsReferrer(Run(users, ops[..|ops| - 1]), ops[|ops| - 1], u);
    }
  }

  // ---------- completion ----------

  /** Who completed a referral is referred and verified. */
  ghost predicate CompletedAreVerified(users: Users) {
    forall u :: u in users && users[u].completed ==> users[u].referred && users[u].verified
  }

  /** The step takes away the verification of somebody who completed a referral. */
  predicate Unverifies(users: Users, op: Op) {
    op.OpChangeEmail? && op.changed in users && users[op.changed].completed
  }

  lemma {:induction false} CompletionKeptExactly(users: Users, op: Op)
    requires CompletedAreVerified(users)
    ensures CompletedAreVerified(Step(users, op)) <==> !Unverifies(users, op)
  {
    if Unverifies(users, op) {
      var after := Step(users, op);
      assert after[op.changed].completed && !after[op.changed].verified;
    }
  }

  ghost predicate NoneUnverified(users: Users, ops: seq<Op>) {
    ops == [] || (NoneUnverified(users, ops[..|ops| - 1]) && !Unverifies(Run(users, ops[..|ops| - 1]), ops[|ops| - 1]))
  }

  /** In a run where nobody changes their email after completing, completion means referred and verified. */
  lemma {:induction false} CompletedMeansVerified(users: Users, ops: seq<Op>)
    requires CompletedAreVerified(users) && NoneUnverified(users, ops)
    ensures CompletedAreVerified(Run(users, ops))
  {
    if ops != [] {
      CompletedMeansVerified(users, ops[..|ops| - 1]);
      CompletionKeptExactly(Run(users, ops[..|ops| - 1]), ops[|ops| - 1]);
    }
  }

  /** The operation verifies a user who is referred by then. */
  predicate Completes(users: Users, op: Op, u: nat) {
    op.OpVerify? && op.id == u && Verify(users, u, op.newEmail, op.taken).0 == Done && users[u].referred
  }

  predicate CompletesAt(users: Users, ops: seq<Op>, k: int, u: nat) {
    0 <= k < |ops| && Completes(Run(users, ops[..k]), ops[k], u)
  }

  lemma {:induction false} StepCompletes(users: Users, op: Op, u: nat)
    requires u in users && (users[u].completed ==> users[u].referred)
    ensures u in Step(users, op) && (Step(users, op)[u].completed ==> Step(users, op)[u].referred)
    ensures Step(users, op)[u].completed <==> (users[u].completed || Completes(users, op, u))
  {}

  /** A referral is completed, in every run, exactly by a verification that comes after the referral. */
  lemma {:induction false} CompletedExactly(users: Users, ops: seq<Op>, u: nat)
    requires u in users && !users[u].completed
    ensures u in Run(users, ops) && (Run(users, ops)[u].completed ==> Run(users, ops)[u].referred)
    ensures Run(users, ops)[u].completed <==> exists k :: CompletesAt(users, ops, k, u)
  {
    if ops != [] {
      var n := |ops| - 1;
      var before := ops[..n];
      CompletedExactly(users, before, u);
      StepCompletes(Run(users, before), ops[n], u);
      forall k | 0 <= k < n ensures CompletesAt(users, ops, k, u) <==> CompletesAt(users, before, k, u) {
        assert before[..k] == ops[..k];
      }
      assert CompletesAt(users, ops, n, u) || !CompletesAt(users, ops, n, u);
    }
  }

  /** A referred and verified user changes their email: the completion stays without the verification. */
  lemma {:induction false} EmailChangeUnverifies()
    ensures var users := map[0 := User(0, None, false, true, false), 1 := User(0, Some(0), true, true, true)];
            CompletedAreVerified(users) && !CompletedAreVerified(Step(users, OpChangeEmail(1)))
  {
    CompletionKeptExactly(map[0 := User(0, None, false, true, false), 1 := User(0, Some(0), true, true, true)],
      OpChangeEmail(1));
  }

  // ---------- the service ----------

  class UserService {
    var users: Users

    method RedeemReferral(referrer: Option<nat>, refereeId: nat) returns (outcome: Outcome)
      modifies this
      ensures (outcome, users) == Redeem(old(users), referrer, refereeId)
    {
      if referrer.None? || referrer.value !in users {
        return Logged;
      }
      var id := referrer.value;
      if users[id].remaining == 0 {
        return Logged;
      }
      if id == refereeId {
        return Refused;
      }
      if refereeId !in users || users[refereeId].referred {
        return Refused;
      }
      users := users[refereeId := users[refereeId].(referred := true, referrer := Some(id))];
      users := users[id := users[id].(remaining := users[id].remaining - 1)];
      outcome := Done;
    }

    method VerifyEmail(id: nat, newEmail: bool, taken: bool) returns (outcome: Outcome)
      modifies this
      ensures (outcome, users) == Verify(old(users), id, newEmail, taken)
    {
      if id !in users {
        return Refused;
      }
      if newEmail {
        if taken {
          return Refused;
        }
      } else if users[id].verified {
        return Refused;
      }
      var isReferred := users[id].referred;
      users := users[id := users[id].(verified := true, completed := isReferred)];
      outcome := Done;
    }
  }
}

/** Redemption limits: approval counts confirmed receipts only, so what a buyer can exceed the limit by is the
    history of approvals still open. */
module MintLimit {
  import opened Wrappers
  import opened Sequences
  import opened CouponLabels

  datatype Coupon = Coupon(couponType: CouponType, numberOfRedemptions: Option<nat>)
  datatype Mint = Mint(buyer: string, user: Option<nat>, couponId: nat, numberOfItems: nat)
  datatype Status = Processing | Confirmed | Failed
  datatype Receipt = Receipt(mint: Mint, status: Status)

  /** Transactions approved and handed out but not yet sent, and the receipt table. */
  datatype State = State(approved: seq<Mint>, receipts: seq<Receipt>)

  /** The two aggregate queries: by wallet for public coupon types, by user for the others. */
  datatype Query = ByWallet(buyer: string, couponId: nat) | ByUser(user: nat, couponId: nat)

  predicate Hits(q: Query, m: Mint) {
    && m.couponId == q.couponId
    && match q
       case ByWallet(buyer, _) => m.buyer == buyer
       case ByUser(user, _) => m.user == Some(user)
  }

  predicate IsPublicMint(couponType: CouponType) {
    couponType == PublicUser || couponType == WhitelistedWallet
  }

  function QueryFor(couponType: CouponType, m: Mint): Option<Query> {
    if IsPublicMint(couponType) then Some(ByWallet(m.buyer, m.couponId))
    else if m.user.Some? then Some(ByUser(m.user.value, m.couponId))
    else None
  }

  /** Items of the receipts a query finds in one status. */
  function Items(receipts: seq<Receipt>, q: Query, status: Status): nat {
    if receipts == [] then 0
    else Items(receipts[..|receipts| - 1], q, status) + Counted(receipts[|receipts| - 1], q, status)
  }

  function Counted(r: Receipt, q: Query, status: Status): nat {
    if r.status == status && Hits(q, r.mint) then r.mint.numberOfItems else 0
  }

  /** validateMintEligibility's login check and validateMintLimit; whitelists are another matter. */
  predicate MayMint(coupons: map<nat, Coupon>, receipts: seq<Receipt>, m: Mint) {
    && m.couponId in coupons
    && var coupon := coupons[m.couponId];
    && QueryFor(coupon.couponType, m).Some?
    && match coupon.numberOfRedemptions
       case None => true
       case Some(limit) =>
         limit != 0 && Items(receipts, QueryFor(coupon.couponType, m).value, Confirmed) + m.numberOfItems <= limit
  }

  // ---------- settling receipts ----------

  /** What the chain answers for a signature: not found, seen but unconfirmed, confirmed with or without an
      error, or an answer that makes the step throw. */
  datatype ChainStatus = NotFound | Unconfirmed | Landed(err: bool) | Unreadable

  function Settle(status: Status, chain: ChainStatus): Status {
    if status != Processing then status
    else
      match chain
      case NotFound => Failed
      case Unconfirmed => Processing
      case Landed(err) => if err then Failed else Confirmed
      case Unreadable => Processing
  }

  /** What settling means: a processing receipt ends confirmed exactly when its transaction landed without an error,
      failed exactly when it landed with one or is not known, and else stays as it is; any other receipt too. */
  ghost predicate IsSettled(before: Receipt, chain: ChainStatus, after: Receipt) {
    && after.mint == before.mint
    && (before.status != Processing ==> after.status == before.status)
    && (before.status == Processing ==>
          && (after.status == Confirmed <==> chain == Landed(false))
          && (after.status == Failed <==> chain == Landed(true) || chain == NotFound))
  }

  class ReceiptTable {
    var receipts: seq<Receipt>

    constructor ()
      ensures receipts == []
    {
      receipts := [];
    }

    /** The sync loop: each receipt read as Processing is settled by its own chain status; the others keep
        their status, and no receipt changes its mint. */
    method SyncCollectibleComicMintReceipts(chain: seq<ChainStatus>)
      requires |chain| == |receipts|
      modifies this
      ensures |receipts| == |old(receipts)|
      ensures forall i :: 0 <= i < |receipts| ==>
                receipts[i] == old(receipts)[i].(status := Settle(old(receipts)[i].status, chain[i]))
      ensures forall i :: 0 <= i < |receipts| ==> IsSettled(old(receipts)[i], chain[i], receipts[i])
    {
      for i := 0 to |receipts|
        invariant |receipts| == |old(receipts)|
        invariant forall k :: 0 <= k < i ==>
                    receipts[k] == old(receipts)[k].(status := Settle(old(receipts)[k].status, chain[k]))
        invariant forall k :: i <= k < |receipts| ==> receipts[k] == old(receipts)[k]
      {
        if receipts[i].status == Processing {
          match chain[i] {
            case NotFound => receipts := receipts[i := receipts[i].(status := Failed)];
            case Landed(err) => receipts := receipts[i := receipts[i].(status := if err then Failed else Confirmed)];
            case _ =>
          }
        }
      }
    }
  }

  // ---------- the protocol ----------

  datatype Event =
    | Approve(mint: Mint)                          // prepareMintTransaction
    | Send(at: nat, sender: Option<nat>)           // validateAndSendMintTransaction, by a logged-in user or not
    | Resend(at: nat, sender: Option<nat>)         // the same, for the transaction of a receipt already there
    | Expire(at: nat)                              // an approved transaction that is never sent
    | Sync(at: nat, chain: ChainStatus)            // fetchAndIndexFromReceiptTransaction
    | LateSync(at: nat, chain: ChainStatus)        // its write, for a receipt settled since it was read
    | Webhook(at: nat, owner: Option<nat>)         // handleCoreCollectibleComicMintEvent

  function RemoveAt<T>(s: seq<T>, i: nat): seq<T>
    requires i < |s|
  {
    s[..i] + s[i + 1..]
  }

  /** Sending checks the login again, for coupons that are not public; it looks for no earlier receipt. */
  predicate MaySend(coupons: map<nat, Coupon>, m: Mint, sender: Option<nat>) {
    m.couponId in coupons && (IsPublicMint(coupons[m.couponId].couponType) || sender.Some?)
  }

  /** The receipt of a sent transaction names the user who sent it. */
  function SentReceipt(m: Mint, sender: Option<nat>): Receipt {
    Receipt(m.(user := sender), Processing)
  }

  /** The webhook confirms a receipt whatever its status, and gives it to the asset owner's user, if any. */
  function Confirm(r: Receipt, owner: Option<nat>): Receipt {
    Receipt(if owner.Some? then r.mint.(user := owner) else r.mint, Confirmed)
  }

  /** The write of a sync task does not look at the status again. */
  function Overwrite(r: Receipt, chain: ChainStatus): Receipt {
    if chain == NotFound || chain == Landed(true) then r.(status := Failed)
    else if chain == Landed(false) then r.(status := Confirmed)
    else r
  }

  function Step(coupons: map<nat, Coupon>, s: State, e: Event): State {
    match e
    case Approve(m) => if MayMint(coupons, s.receipts, m) then s.(approved := s.approved + [m]) else s
    case Send(i, sender) =>
      if i < |s.approved| && MaySend(coupons, s.approved[i], sender)
      then State(RemoveAt(s.approved, i), s.receipts + [SentReceipt(s.approved[i], sender)]) else s
    case Resend(i, sender) =>
      if i < |s.receipts| && MaySend(coupons, s.receipts[i].mint, sender)
      then s.(receipts := s.receipts + [SentReceipt(s.receipts[i].mint, sender)]) else s
    case Expire(i) => if i < |s.approved| then s.(approved := RemoveAt(s.approved, i)) else s
    case Sync(i, chain) =>
      if i >= |s.receipts| then s
      else s.(receipts := s.receipts[i := s.receipts[i].(status := Settle(s.receipts[i].status, chain))])
    case LateSync(i, chain) =>
      if i < |s.receipts| then s.(receipts := s.receipts[i := Overwrite(s.receipts[i], chain)]) else s
    case Webhook(i, owner) =>
      if i < |s.receipts| then s.(receipts := s.receipts[i := Confirm(s.receipts[i], owner)]) else s
  }

  function Run(coupons: map<nat, Coupon>, s: State, events: seq<Event>): State {
    if events == [] then s else Step(coupons, Run(coupons, s, events[..|events| - 1]), events[|events| - 1])
  }

  // ---------- each event, field by field ----------

  /** The receipts of all indices but `i` stay. */
  ghost predicate OthersStay(before: seq<Receipt>, after: seq<Receipt>, i: nat) {
    |after| == |before| && forall k :: 0 <= k < |before| && k != i ==> after[k] == before[k]
  }

  lemma {:induction false} SyncSettles(coupons: map<nat, Coupon>, s: State, i: nat, chain: ChainStatus)
    requires i < |s.receipts|
    ensures var after := Step(coupons, s, Sync(i, chain));
            && after.approved == s.approved && OthersStay(s.receipts, after.receipts, i)
            && IsSettled(s.receipts[i], chain, after.receipts[i])
  {}

  /** The write of an overlapping sync task: the same answers, whatever the status is by now. */
  lemma {:induction false} LateSyncWrites(coupons: map<nat, Coupon>, s: State, i: nat, chain: ChainStatus)
    requires i < |s.receipts|
    ensures var after := Step(coupons, s, LateSync(i, chain));
            && after.approved == s.approved && OthersStay(s.receipts, after.receipts, i)
            && after.receipts[i].mint == s.receipts[i].mint
            && after.receipts[i].status == (if chain == Landed(false) then Confirmed
                                            else if chain == Landed(true) || chain == NotFound then Failed
                                            else s.receipts[i].status)
  {}

  /** The webhook confirms the receipt, and names the owner's user in it if there is one. */
  lemma {:induction false} WebhookWrites(coupons: map<nat, Coupon>, s: State, i: nat, owner: Option<nat>)
    requires i < |s.receipts|
    ensures var after, was := Step(coupons, s, Webhook(i, owner)), s.receipts[i].mint;
            && after.approved == s.approved && OthersStay(s.receipts, after.receipts, i)
            && after.receipts[i].status == Confirmed
            && after.receipts[i].mint
               == Mint(was.buyer, if owner.Some? then owner else was.user, was.couponId, was.numberOfItems)
  {}

  /** A send, first or again, stores one more receipt, open and in the sender's name, unless its coupon is for
      registered users and nobody is logged in; only a first send uses up the approval. */
  lemma {:induction false} SendStores(coupons: map<nat, Coupon>, s: State, i: nat, sender: Option<nat>, again: bool,
          m: Mint)
    requires if again then i < |s.receipts| && m == s.receipts[i].mint else i < |s.approved| && m == s.approved[i]
    ensures var e := if again then Resend(i, sender) else Send(i, sender);
            Step(coupons, s, e)
            == if m.couponId in coupons
                  && (coupons[m.couponId].couponType in {PublicUser, WhitelistedWallet} || sender.Some?)
               then State(if again then s.approved else s.approved[..i] + s.approved[i + 1..],
                          s.receipts + [Receipt(Mint(m.buyer, sender, m.couponId, m.numberOfItems), Processing)])
               else s
  {}

  /** An approval that expires is the only one to go. */
  lemma {:induction false} ExpireRemoves(coupons: map<nat, Coupon>, s: State, i: nat)
    requires i < |s.approved|
    ensures Step(coupons, s, Expire(i)) == State(s.approved[..i] + s.approved[i + 1..], s.receipts)
  {}

  /** What a query adds up: the items of the receipts of its coupon and status, by the buyer's wallet or by user. */
  lemma {:induction false} ItemsCounted(receipts: seq<Receipt>, q: Query, status: Status)
    ensures Items([], q, status) == 0
    ensures forall r :: Items(receipts + [r], q, status)
                        == Items(receipts, q, status)
                           + if r.status == status && r.mint.couponId == q.couponId
                                && (q.ByWallet? ==> r.mint.buyer == q.buyer)
                                && (q.ByUser? ==> r.mint.user == Some(q.user))
                             then r.mint.numberOfItems else 0
  {
    forall r
      ensures Items(receipts + [r], q, status) == Items(receipts, q, status) + Counted(r, q, status)
    {
      assert (receipts + [r])[..|receipts|] == receipts;
    }
  }

  /** When a mint is approved: its coupon exists; a coupon of registered users needs a user; no limit lets every
      number of items through and a limit of zero none; any other limit must hold the confirmed items and the new
      ones, counted by wallet for public coupons and whitelisted wallets, by user for the others. */
  lemma {:induction false} ApprovedExactly(coupons: map<nat, Coupon>, s: State, m: Mint, coupon: Coupon)
    requires m.couponId in coupons && coupon == coupons[m.couponId]
    ensures var byWallet := coupon.couponType in {PublicUser, WhitelistedWallet};
            Step(coupons, s, Approve(m))
            == if (byWallet || m.user.Some?)
                  && match coupon.numberOfRedemptions
                     case None => true
                     case Some(limit) =>
                       && limit != 0
                       && m.numberOfItems
                          + Items(s.receipts,
                                  if byWallet then ByWallet(m.buyer, m.couponId) else ByUser(m.user.value, m.couponId),
                                  Confirmed)
                          <= limit
               then State(s.approved + [m], s.receipts) else s
  {}

  // ---------- exposure: confirmed and still open items ----------

  function ApprovedItems(approved: seq<Mint>, q: Query): nat {
    if approved == [] then 0
    else ApprovedItems(approved[..|approved| - 1], q)
         + (if Hits(q, approved[|approved| - 1]) then approved[|approved| - 1].numberOfItems else 0)
  }

  function Exposure(s: State, q: Query): nat {
    ApprovedItems(s.approved, q) + Items(s.receipts, q, Processing) + Items(s.receipts, q, Confirmed)
  }

  lemma {:induction false} ItemsUpdate(receipts: seq<Receipt>, i: nat, r: Receipt, q: Query, status: Status)
    requires i < |receipts|
    ensures Items(receipts[i := r], q, status)
            == Items(receipts, q, status) - Counted(receipts[i], q, status) + Counted(r, q, status)
  {
    var n := |receipts| - 1;
    if i == n {
      assert receipts[i := r][..n] == receipts[..n];
    } else {
      assert receipts[i := r][..n] == receipts[..n][i := r];
      ItemsUpdate(receipts[..n], i, r, q, status);
    }
  }

  lemma {:induction false} ApprovedRemove(approved: seq<Mint>, i: nat, q: Query)
    requires i < |approved|
    ensures ApprovedItems(RemoveAt(approved, i), q)
            == ApprovedItems(approved, q) - (if Hits(q, approved[i]) then approved[i].numberOfItems else 0)
  {
    var n := |approved| - 1;
    if i == n {
      assert RemoveAt(approved, i) == approved[..n];
    } else {
      assert RemoveAt(approved, i)[..n - 1] == RemoveAt(approved[..n], i);
      ApprovedRemove(approved[..n], i, q);
    }
  }

  /** What a mint weighs for a query. */
  function Weight(m: Mint, q: Query): nat {
    if Hits(q, m) then m.numberOfItems else 0
  }

  function Live(r: Receipt, q: Query): nat {
    if r.status != Failed then Weight(r.mint, q) else 0
  }

  /** By how much one event changes a query's exposure. */
  function Delta(coupons: map<nat, Coupon>, s: State, e: Event, q: Query): int {
    match e
    case Approve(m) => if MayMint(coupons, s.receipts, m) && Hits(q, m) then m.numberOfItems else 0
    case Send(i, sender) =>
      if i < |s.approved| && MaySend(coupons, s.approved[i], sender)
      then Weight(s.approved[i].(user := sender), q) - Weight(s.approved[i], q) else 0
    case Resend(i, sender) =>
      if i < |s.receipts| && MaySend(coupons, s.receipts[i].mint, sender)
      then Weight(s.receipts[i].mint.(user := sender), q) else 0
    case Expire(i) => if i < |s.approved| && Hits(q, s.approved[i]) then 0 - s.approved[i].numberOfItems else 0
    case Sync(i, chain) =>
      if i < |s.receipts| && Settle(s.receipts[i].status, chain) == Failed then 0 - Live(s.receipts[i], q) else 0
    case LateSync(i, chain) =>
      if i < |s.receipts| then Live(Overwrite(s.receipts[i], chain), q) - Live(s.receipts[i], q) else 0
    case Webhook(i, owner) =>
      if i < |s.receipts| then Live(Confirm(s.receipts[i], owner), q) - Live(s.receipts[i], q) else 0
  }

  lemma {:induction false} LiveUpdate(receipts: seq<Receipt>, i: nat, r: Receipt, q: Query)
    requires i < |receipts|
    ensures Items(receipts[i := r], q, Processing) + Items(receipts[i := r], q, Confirmed)
         == Items(receipts, q, Processing) + Items(receipts, q, Confirmed) - Live(receipts[i], q) + Live(r, q)
  {
    ItemsUpdate(receipts, i, r, q, Processing);
    ItemsUpdate(receipts, i, r, q, Confirmed);
  }

  lemma {:induction false} LiveAppend(receipts: seq<Receipt>, r: Receipt, q: Query)
    ensures Items(receipts + [r], q, Processing) + Items(receipts + [r], q, Confirmed)
         == Items(receipts, q, Processing) + Items(receipts, q, Confirmed) + Live(r, q)
  {
    assert (receipts + [r])[..|receipts|] == receipts;
  }

  lemma {:induction false} ApprovedAppend(approved: seq<Mint>, m: Mint, q: Query)
    ensures ApprovedItems(approved + [m], q) == ApprovedItems(approved, q) + (if Hits(q, m) then m.numberOfItems else 0)
    ensures ApprovedCount(approved + [m], q) == ApprovedCount(approved, q) + (if Hits(q, m) then 1 else 0)
  {
    assert (approved + [m])[..|approved|] == approved;
  }

  lemma {:induction false} SendLaw(s: State, i: nat, sender: Option<nat>, m: Mint, approved: seq<Mint>,
          receipts: seq<Receipt>, q: Query)
    requires i < |s.approved| && m == s.approved[i]
    requires approved == RemoveAt(s.approved, i) && receipts == s.receipts + [SentReceipt(m, sender)]
    ensures Exposure(State(approved, receipts), q)
         == Exposure(s, q) + Weight(m.(user := sender), q) - Weight(m, q)
  {
    ApprovedRemove(s.approved, i, q);
    LiveAppend(s.receipts, SentReceipt(m, sender), q);
  }

  /** By how much each event changes a query's items, approved, open and confirmed together. Sending by the
      approved user and settling conserve them; sending as another user, sending again, a webhook and an
      overlapping sync task may add some. */
  lemma {:induction false} ExposureLaw(coupons: map<nat, Coupon>, s: State, e: Event, q: Query)
    ensures Exposure(Step(coupons, s, e), q) == Exposure(s, q) + Delta(coupons, s, e, q)
  {
    match e
    case Approve(m) =>
      ApprovedAppend(s.approved, m, q);
    case Send(i, sender) =>
      if i < |s.approved| {
        var m := s.approved[i];
        SendLaw(s, i, sender, m, RemoveAt(s.approved, i), s.receipts + [SentReceipt(m, sender)], q);
      }
    case Resend(i, sender) =>
      if i < |s.receipts| {
        LiveAppend(s.receipts, SentReceipt(s.receipts[i].mint, sender), q);
      }
    case Expire(i) =>
      if i < |s.approved| {
        ApprovedRemove(s.approved, i, q);
      }
    case Sync(i, chain) =>
      SyncLaw(coupons, s, i, chain, q);
    case LateSync(i, chain) =>
      LateSyncLaw(coupons, s, i, chain, q);
    case Webhook(i, owner) =>
      WebhookLaw(coupons, s, i, owner, q);
  }

  lemma {:induction false} LateSyncLaw(coupons: map<nat, Coupon>, s: State, i: nat, chain: ChainStatus, q: Query)
    ensures var e := LateSync(i, chain); Exposure(Step(coupons, s, e), q) == Exposure(s, q) + Delta(coupons, s, e, q)
  {
    if i < |s.receipts| {
      LiveUpdate(s.receipts, i, Overwrite(s.receipts[i], chain), q);
    }
  }

  lemma {:induction false} WebhookLaw(coupons: map<nat, Coupon>, s: State, i: nat, owner: Option<nat>, q: Query)
    ensures var e := Webhook(i, owner); Exposure(Step(coupons, s, e), q) == Exposure(s, q) + Delta(coupons, s, e, q)
  {
    if i < |s.receipts| {
      LiveUpdate(s.receipts, i, Confirm(s.receipts[i], owner), q);
    }
  }

  lemma {:induction false} SyncLaw(coupons: map<nat, Coupon>, s: State, i: nat, chain: ChainStatus, q: Query)
    ensures var e := Sync(i, chain); Exposure(Step(coupons, s, e), q) == Exposure(s, q) + Delta(coupons, s, e, q)
  {
    if i < |s.receipts| {
      LiveUpdate(s.receipts, i, s.receipts[i].(status := Settle(s.receipts[i].status, chain)), q);
    }
  }

  // ---------- the cap ----------

  function OpenCount(s: State, q: Query): nat {
    ApprovedCount(s.approved, q) + ProcessingCount(s.receipts, q)
  }

  function ApprovedCount(approved: seq<Mint>, q: Query): nat {
    if approved == [] then 0
    else ApprovedCount(approved[..|approved| - 1], q) + (if Hits(q, approved[|approved| - 1]) then 1 else 0)
  }

  function ProcessingCount(receipts: seq<Receipt>, q: Query): nat {
    if receipts == [] then 0
    else ProcessingCount(receipts[..|receipts| - 1], q)
           + (if receipts[|receipts| - 1].status == Processing && Hits(q, receipts[|receipts| - 1].mint) then 1 else 0)
  }

  /** At most `width` mints open for the query, of at most `size` items each. */
  ghost predicate Within(s: State, q: Query, width: nat, size: nat) {
    && OpenCount(s, q) <= width
    && (forall m :: m in s.approved && Hits(q, m) ==> m.numberOfItems <= size)
    && (forall r :: r in s.receipts && r.status == Processing && Hits(q, r.mint) ==> r.mint.numberOfItems <= size)
  }

  lemma {:induction false} ApprovedAtMost(approved: seq<Mint>, q: Query, size: nat)
    requires forall m :: m in approved && Hits(q, m) ==> m.numberOfItems <= size
    ensures ApprovedItems(approved, q) <= ApprovedCount(approved, q) * size
  {
    if approved != [] {
      ApprovedAtMost(approved[..|approved| - 1], q, size);
      OneMore(ApprovedCount(approved[..|approved| - 1], q) + 1, size);
    }
  }

  lemma {:induction false} ProcessingAtMost(receipts: seq<Receipt>, q: Query, size: nat)
    requires forall r :: r in receipts && r.status == Processing && Hits(q, r.mint) ==> r.mint.numberOfItems <= size
    ensures Items(receipts, q, Processing) <= ProcessingCount(receipts, q) * size
  {
    if receipts != [] {
      ProcessingAtMost(receipts[..|receipts| - 1], q, size);
      OneMore(ProcessingCount(receipts[..|receipts| - 1], q) + 1, size);
    }
  }

  // ---------- events that add items nobody approved ----------

  /** The mint counts for the query, with at least one item. */
  predicate Counts(q: Query, m: Mint) {
    Hits(q, m) && m.numberOfItems > 0
  }

  /** What keeps an event from adding to a query: a transaction is sent by the user it was approved for, and
      only once; no late sync confirms a failed receipt; the webhook confirms no failed receipt, and gives the
      query none that it did not count. */
  predicate Orderly(coupons: map<nat, Coupon>, s: State, e: Event, q: Query) {
    match e
    case Send(i, sender) =>
      i < |s.approved| && MaySend(coupons, s.approved[i], sender) && Counts(q, s.approved[i].(user := sender))
      ==> Hits(q, s.approved[i])
    case Resend(i, sender) =>
      !(i < |s.receipts| && MaySend(coupons, s.receipts[i].mint, sender)
        && Counts(q, s.receipts[i].mint.(user := sender)))
    case LateSync(i, chain) =>
      !(i < |s.receipts| && s.receipts[i].status == Failed && chain == Landed(false) && Counts(q, s.receipts[i].mint))
    case Webhook(i, owner) =>
      i < |s.receipts| && Counts(q, Confirm(s.receipts[i], owner).mint)
      ==> s.receipts[i].status != Failed && Hits(q, s.receipts[i].mint)
    case _ => true
  }

  /** Those conditions are exact, event by event. */
  lemma {:induction false} OrderlyExactly(coupons: map<nat, Coupon>, s: State, e: Event, q: Query)
    requires !e.Approve?
    ensures Orderly(coupons, s, e, q) <==> Exposure(Step(coupons, s, e), q) <= Exposure(s, q)
  {
    ExposureLaw(coupons, s, e, q);
  }

  /** For a wallet query a send is always orderly; for a user query exactly unless that user sends what was
      approved for somebody else. */
  lemma {:induction false} SendOrderlyExactly(coupons: map<nat, Coupon>, s: State, i: nat, sender: Option<nat>,
          q: Query)
    requires i < |s.approved| && MaySend(coupons, s.approved[i], sender)
    ensures var m := s.approved[i];
            Orderly(coupons, s, Send(i, sender), q)
            <==> !(q.ByUser? && m.couponId == q.couponId && m.numberOfItems > 0 && sender == Some(q.user)
                 && m.user != sender)
  {}

  /** Items an event adds that no approval saw. */
  function Surplus(coupons: map<nat, Coupon>, s: State, e: Event, q: Query): nat {
    if e.Approve? || Delta(coupons, s, e, q) <= 0 then 0 else Delta(coupons, s, e, q)
  }

  function Excess(coupons: map<nat, Coupon>, s: State, events: seq<Event>, q: Query): nat {
    if events == [] then 0
    else
      var before, e := events[..|events| - 1], events[|events| - 1];
      Excess(coupons, s, before, q) + Surplus(coupons, Run(coupons, s, before), e, q)
  }

  /** Along the whole run at most `width` mints of at most `size` items are open for the query. */
  ghost predicate WithinRun(coupons: map<nat, Coupon>, events: seq<Event>, q: Query, width: nat, size: nat) {
    && Within(Run(coupons, START, events), q, width, size)
    && (events == [] || WithinRun(coupons, events[..|events| - 1], q, width, size))
  }

  ghost predicate AllOrderly(coupons: map<nat, Coupon>, events: seq<Event>, q: Query) {
    events == [] ||
    (var before := events[..|events| - 1];
     AllOrderly(coupons, before, q) && Orderly(coupons, Run(coupons, START, before), events[|events| - 1], q))
  }

  /** A run adds nothing unapproved exactly when all its events are orderly. */
  lemma {:induction false} NoExcessExactly(coupons: map<nat, Coupon>, events: seq<Event>, q: Query)
    ensures Excess(coupons, START, events, q) == 0 <==> AllOrderly(coupons, events, q)
  {
    if events != [] {
      var before, e := events[..|events| - 1], events[|events| - 1];
      NoExcessExactly(coupons, before, q);
      var s := Run(coupons, START, before);
      ExposureLaw(coupons, s, e, q);
      if !e.Approve? {
        OrderlyExactly(coupons, s, e, q);
      }
    }
  }

  const START := State([], [])

  /** The query that validateMintLimit runs for a coupon's mints. */
  predicate Limits(coupons: map<nat, Coupon>, q: Query, limit: nat) {
    && q.couponId in coupons
    && coupons[q.couponId].numberOfRedemptions == Some(limit)
    && (IsPublicMint(coupons[q.couponId].couponType) <==> q.ByWallet?)
  }

  lemma {:induction false} Product(a: nat, b: nat)
    ensures a * b >= 0
  {}

  lemma {:induction false} ExposureBounded(coupons: map<nat, Coupon>, events: seq<Event>, q: Query, limit: nat,
          width: nat, size: nat, more: nat, s: State)
    requires Limits(coupons, q, limit) && width >= 1 && WithinRun(coupons, events, q, width, size)
    requires more == (width - 1) * size && s == Run(coupons, START, events)
    ensures Exposure(s, q) <= limit + more + Excess(coupons, START, events, q)
    decreases |events|
  {
    if events != [] {
      var before, e := Run(coupons, START, events[..|events| - 1]), events[|events| - 1];
      ExposureBounded(coupons, events[..|events| - 1], q, limit, width, size, more, before);
      ExposureLaw(coupons, before, e, q);
      if e.Approve? && MayMint(coupons, before.receipts, e.mint) && Hits(q, e.mint) {
        ApprovalFits(coupons, before, e.mint, q, limit, width, size);
      }
    }
  }

  /** An approval sees the confirmed items, and at most `width - 1` other mints were open. */
  lemma {:induction false} ApprovalFits(coupons: map<nat, Coupon>, s: State, m: Mint, q: Query, limit: nat,
          width: nat, size: nat)
    requires Limits(coupons, q, limit) && width >= 1
    requires MayMint(coupons, s.receipts, m) && Hits(q, m)
    requires Within(s, q, width, size) && Within(Step(coupons, s, Approve(m)), q, width, size)
    ensures Exposure(s, q) + m.numberOfItems <= limit + (width - 1) * size
  {
    assert QueryFor(coupons[q.couponId].couponType, m) == Some(q);
    ApprovedAppend(s.approved, m, q);
    ApprovedAtMost(s.approved, q, size);
    ProcessingAtMost(s.receipts, q, size);
    FitsBelow(ApprovedCount(s.approved, q), ProcessingCount(s.receipts, q), width - 1, size);
  }

  lemma {:induction false} FitsBelow(a: nat, p: nat, width: nat, size: nat)
    requires a + p <= width
    ensures a * size + p * size <= width * size
  {
    assert (a + p) * size <= width * size;
  }

  /** However the events interleave, a buyer who never has more than `width` mints of at most `size` items open
      ends up with at most limit + (width - 1) * size confirmed items, and what the run added unapproved. */
  lemma {:induction false} ConfirmedWithinExcess(coupons: map<nat, Coupon>, events: seq<Event>, q: Query, limit: nat,
          width: nat, size: nat)
    requires Limits(coupons, q, limit) && width >= 1 && WithinRun(coupons, events, q, width, size)
    ensures Items(Run(coupons, START, events).receipts, q, Confirmed)
         <= limit + (width - 1) * size + Excess(coupons, START, events, q)
  {
    Product(width - 1, size);
    ExposureBounded(coupons, events, q, limit, width, size, (width - 1) * size, Run(coupons, START, events));
  }

  /** So with orderly events at most limit + (width - 1) * size, and the limit itself for one mint at a time. */
  lemma {:induction false} ConfirmedWithinLimit(coupons: map<nat, Coupon>, events: seq<Event>, q: Query, limit: nat,
          width: nat, size: nat)
    requires Limits(coupons, q, limit) && width >= 1
    requires WithinRun(coupons, events, q, width, size) && AllOrderly(coupons, events, q)
    ensures Items(Run(coupons, START, events).receipts, q, Confirmed) <= limit + (width - 1) * size
    ensures width == 1 ==> Items(Run(coupons, START, events).receipts, q, Confirmed) <= limit
  {
    ConfirmedWithinExcess(coupons, events, q, limit, width, size);
    NoExcessExactly(coupons, events, q);
    if width == 1 {
      assert (width - 1) * size == 0;
    }
  }

  /** Confirmed and failed receipts are final: no run changes a settled receipt, unless a webhook or the write
      of an overlapping sync task names it. */
  lemma {:induction false} SettledIsFinal(coupons: map<nat, Coupon>, s: State, events: seq<Event>, i: nat)
    requires i < |s.receipts| && s.receipts[i].status != Processing
    requires forall e :: e in events && (e.Webhook? || e.LateSync?) ==> e.at != i
    ensures i < |Run(coupons, s, events).receipts| && Run(coupons, s, events).receipts[i] == s.receipts[i]
  {
    if events != [] {
      SettledIsFinal(coupons, s, events[..|events| - 1], i);
    }
  }

  // ---------- the cap is exact ----------

  /** The state at the end of some orderly run. */
  ghost predicate Reachable(coupons: map<nat, Coupon>, s: State, q: Query, width: nat, size: nat) {
    exists events ::
      Run(coupons, START, events) == s && WithinRun(coupons, events, q, width, size) && AllOrderly(coupons, events, q)
  }

  lemma {:induction false} ReachStep(coupons: map<nat, Coupon>, s: State, e: Event, after: State, q: Query,
          width: nat, size: nat)
    requires Reachable(coupons, s, q, width, size) && Orderly(coupons, s, e, q)
    requires after == Step(coupons, s, e) && Within(after, q, width, size)
    ensures Reachable(coupons, after, q, width, size)
  {
    var events :| Run(coupons, START, events) == s && WithinRun(coupons, events, q, width, size)
      && AllOrderly(coupons, events, q);
    assert (events + [e])[..|events|] == events;
    assert Run(coupons, START, events + [e]) == after;
    assert WithinRun(coupons, events + [e], q, width, size) && AllOrderly(coupons, events + [e], q);
  }

  /** A mint of `n` items that the query counts. */
  function MintFor(q: Query, n: nat): (m: Mint)
    ensures Hits(q, m) && m.numberOfItems == n
  {
    match q
    case ByWallet(buyer, couponId) => Mint(buyer, None, couponId, n)
    case ByUser(user, couponId) => Mint("", Some(user), couponId, n)
  }

  /** `waiting` approvals of one mint, and a table without open receipts. */
  ghost predicate Settled(receipts: seq<Receipt>, q: Query, items: nat) {
    (forall r :: r in receipts ==> r.status == Confirmed) && Items(receipts, q, Confirmed) == items
  }

  lemma {:induction false} SettledCounts(receipts: seq<Receipt>, q: Query)
    requires forall r :: r in receipts ==> r.status == Confirmed
    ensures ProcessingCount(receipts, q) == 0
  {
    if receipts != [] {
      SettledCounts(receipts[..|receipts| - 1], q);
    }
  }

  lemma {:induction false} RepeatCounts(m: Mint, n: nat, q: Query)
    requires Hits(q, m)
    ensures ApprovedCount(Repeat(m, n), q) == n
  {
    if n > 0 {
      RepeatCounts(m, n - 1, q);
      assert Repeat(m, n)[..n - 1] == Repeat(m, n - 1);
    }
  }

  lemma {:induction false} OneReceipt(receipts: seq<Receipt>, r: Receipt, q: Query)
    ensures Items(receipts + [r], q, Confirmed) == Items(receipts, q, Confirmed) + Counted(r, q, Confirmed)
    ensures ProcessingCount(receipts + [r], q)
            == ProcessingCount(receipts, q) + (if r.status == Processing && Hits(q, r.mint) then 1 else 0)
  {
    assert (receipts + [r])[..|receipts|] == receipts;
  }

  /** Waiting approvals of one size beside confirmed receipts, with at most one more receipt open. */
  lemma {:induction false} WaitingWithin(waiting: nat, receipts: seq<Receipt>, q: Query, n: nat, width: nat, size: nat)
    requires (forall r :: r in receipts ==> r.status == Confirmed) && n <= size
    ensures waiting <= width ==> Within(State(Repeat(MintFor(q, n), waiting), receipts), q, width, size)
    ensures waiting + 1 <= width ==>
              Within(State(Repeat(MintFor(q, n), waiting), receipts + [Receipt(MintFor(q, n), Processing)]), q,
                width, size)
  {
    var m := MintFor(q, n);
    SettledCounts(receipts, q);
    RepeatCounts(m, waiting, q);
    OneReceipt(receipts, Receipt(m, Processing), q);
  }

  lemma {:induction false} SendOne(coupons: map<nat, Coupon>, waiting: nat, receipts: seq<Receipt>, q: Query, n: nat,
          width: nat, size: nat)
    requires MaySend(coupons, MintFor(q, n), MintFor(q, n).user)
    requires (forall r :: r in receipts ==> r.status == Confirmed) && n <= size && 1 <= waiting <= width
    requires Reachable(coupons, State(Repeat(MintFor(q, n), waiting), receipts), q, width, size)
    ensures Reachable(coupons,
              State(Repeat(MintFor(q, n), waiting - 1), receipts + [Receipt(MintFor(q, n), Processing)]), q, width,
                size)
  {
    var m := MintFor(q, n);
    var s, after := State(Repeat(m, waiting), receipts),
                      State(Repeat(m, waiting - 1), receipts + [Receipt(m, Processing)]);
    SendFirst(coupons, m, waiting, receipts, q, n, width, size, s, after);
    ReachStep(coupons, s, Send(0, m.user), after, q, width, size);
  }

  lemma {:induction false} SendFirst(coupons: map<nat, Coupon>, m: Mint, waiting: nat, receipts: seq<Receipt>, q: Query,
          n: nat, width: nat, size: nat, s: State, after: State)
    requires MaySend(coupons, m, m.user) && m == MintFor(q, n) && n <= size && 1 <= waiting <= width
    requires forall r :: r in receipts ==> r.status == Confirmed
    requires s == State(Repeat(m, waiting), receipts)
    requires after == State(Repeat(m, waiting - 1), receipts + [Receipt(m, Processing)])
    ensures Orderly(coupons, s, Send(0, m.user), q)
    ensures after == Step(coupons, s, Send(0, m.user)) && Within(after, q, width, size)
  {
    WaitingWithin(waiting - 1, receipts, q, n, width, size);
    assert RemoveAt(Repeat(m, waiting), 0) == Repeat(m, waiting - 1);
  }

  lemma {:induction false} ConfirmOne(coupons: map<nat, Coupon>, waiting: nat, receipts: seq<Receipt>, q: Query,
          n: nat, width: nat, size: nat)
    requires (forall r :: r in receipts ==> r.status == Confirmed) && n <= size && waiting <= width
    requires Reachable(coupons,
               State(Repeat(MintFor(q, n), waiting), receipts + [Receipt(MintFor(q, n), Processing)]), q, width, size)
    ensures Reachable(coupons, State(Repeat(MintFor(q, n), waiting), receipts + [Receipt(MintFor(q, n), Confirmed)]),
              q, width, size)
  {
    var m := MintFor(q, n);
    var open, done := receipts + [Receipt(m, Processing)], receipts + [Receipt(m, Confirmed)];
    var s, e := State(Repeat(m, waiting), open), Sync(|receipts|, Landed(false));
    assert open[|receipts| := Receipt(m, Confirmed)] == done;
    assert Step(coupons, s, e) == State(Repeat(m, waiting), done);
    WaitingWithin(waiting, done, q, n, width, size);
    ReachStep(coupons, s, e, State(Repeat(m, waiting), done), q, width, size);
  }

  /** One of `waiting` approvals is sent and confirmed. */
  lemma {:induction false} SettleOne(coupons: map<nat, Coupon>, waiting: nat, receipts: seq<Receipt>, items: nat,
          q: Query, n: nat, width: nat, size: nat)
    requires MaySend(coupons, MintFor(q, n), MintFor(q, n).user)
    requires Settled(receipts, q, items) && n <= size && 1 <= waiting <= width
    requires Reachable(coupons, State(Repeat(MintFor(q, n), waiting), receipts), q, width, size)
    ensures var receipts' := receipts + [Receipt(MintFor(q, n), Confirmed)];
            && Settled(receipts', q, items + n)
            && Reachable(coupons, State(Repeat(MintFor(q, n), waiting - 1), receipts'), q, width, size)
  {
    SendOne(coupons, waiting, receipts, q, n, width, size);
    ConfirmOne(coupons, waiting - 1, receipts, q, n, width, size);
    OneReceipt(receipts, Receipt(MintFor(q, n), Confirmed), q);
  }

  /** One more mint of `n` items is approved. */
  lemma {:induction false} ApproveOne(coupons: map<nat, Coupon>, waiting: nat, receipts: seq<Receipt>, items: nat,
          q: Query, limit: nat, n: nat, width: nat, size: nat)
    requires Limits(coupons, q, limit) && 1 <= limit && items + n <= limit
    requires Settled(receipts, q, items) && n <= size && waiting < width
    requires Reachable(coupons, State(Repeat(MintFor(q, n), waiting), receipts), q, width, size)
    ensures Reachable(coupons, State(Repeat(MintFor(q, n), waiting + 1), receipts), q, width, size)
  {
    var m := MintFor(q, n);
    WaitingWithin(waiting + 1, receipts, q, n, width, size);
    var after := State(Repeat(m, waiting + 1), receipts);
    ReachStep(coupons, State(Repeat(m, waiting), receipts), Approve(m), after, q, width, size);
  }

  lemma {:induction false} StartReachable(coupons: map<nat, Coupon>, q: Query, width: nat, size: nat)
    ensures Reachable(coupons, START, q, width, size)
  {
    assert Run(coupons, START, []) == START && WithinRun(coupons, [], q, width, size) && AllOrderly(coupons, [], q);
  }

  /** A single item is approved and settled. */
  lemma {:induction false} SinglesStep(coupons: map<nat, Coupon>, k: nat, before: seq<Receipt>, q: Query, limit: nat,
          width: nat, size: nat)
    requires Limits(coupons, q, limit) && k < limit && width >= 1 && size >= 1
    requires Settled(before, q, k) && Reachable(coupons, State([], before), q, width, size)
    ensures var after := before + [Receipt(MintFor(q, 1), Confirmed)];
            Settled(after, q, k + 1) && Reachable(coupons, State([], after), q, width, size)
  {
    assert Repeat(MintFor(q, 1), 0) == [];
    ApproveOne(coupons, 0, before, k, q, limit, 1, width, size);
    SettleOne(coupons, 1, before, k, q, 1, width, size);
  }

  lemma {:induction false} Singles(coupons: map<nat, Coupon>, k: nat, q: Query, limit: nat, width: nat, size: nat)
    returns (receipts: seq<Receipt>)
    requires Limits(coupons, q, limit) && k <= limit && width >= 1 && size >= 1
    ensures Settled(receipts, q, k) && Reachable(coupons, State([], receipts), q, width, size)
  {
    receipts := [];
    StartReachable(coupons, q, width, size);
    for done := 0 to k
      invariant Settled(receipts, q, done) && Reachable(coupons, State([], receipts), q, width, size)
    {
      SinglesStep(coupons, done, receipts, q, limit, width, size);
      receipts := receipts + [Receipt(MintFor(q, 1), Confirmed)];
    }
  }

  lemma {:induction false} Approvals(coupons: map<nat, Coupon>, j: nat, receipts: seq<Receipt>, items: nat, q: Query,
          limit: nat, width: nat, size: nat)
    requires Limits(coupons, q, limit) && 1 <= limit && items + size <= limit && j <= width
    requires Settled(receipts, q, items) && Reachable(coupons, State([], receipts), q, width, size)
    ensures Reachable(coupons, State(Repeat(MintFor(q, size), j), receipts), q, width, size)
  {
    if j > 0 {
      Approvals(coupons, j - 1, receipts, items, q, limit, width, size);
      ApproveOne(coupons, j - 1, receipts, items, q, limit, size, width, size);
    }
  }

  lemma {:induction false} OneMore(n: nat, size: nat)
    requires n >= 1
    ensures (n - 1) * size + size == n * size
  {}

  /** Approvals of `size` items that wait, and may be sent, beside settled receipts. */
  ghost predicate Waits(coupons: map<nat, Coupon>, waiting: nat, receipts: seq<Receipt>, items: nat, q: Query,
          width: nat, size: nat) {
    && MaySend(coupons, MintFor(q, size), MintFor(q, size).user)
    && Settled(receipts, q, items)
    && Reachable(coupons, State(Repeat(MintFor(q, size), waiting), receipts), q, width, size)
  }

  lemma {:induction false} SettleNext(coupons: map<nat, Coupon>, waiting: nat, receipts: seq<Receipt>, items: nat,
          q: Query, width: nat, size: nat)
    returns (next: seq<Receipt>)
    requires 1 <= waiting <= width && Waits(coupons, waiting, receipts, items, q, width, size)
    ensures Waits(coupons, waiting - 1, next, items + size, q, width, size)
  {
    SettleOne(coupons, waiting, receipts, items, q, size, width, size);
    next := receipts + [Receipt(MintFor(q, size), Confirmed)];
  }

  /** All waiting approvals are settled one after the other; `owed` items are still to come. */
  lemma {:induction false} Settlements(coupons: map<nat, Coupon>, waiting: nat, receipts: seq<Receipt>, items: nat,
          owed: nat, q: Query, width: nat, size: nat)
    returns (last: seq<Receipt>)
    requires waiting <= width && Waits(coupons, waiting, receipts, items, q, width, size)
    requires owed == waiting * size
    ensures Waits(coupons, 0, last, items + owed, q, width, size)
    decreases waiting, 1
  {
    if waiting == 0 {
      last := receipts;
    } else {
      var next := SettleNext(coupons, waiting, receipts, items, q, width, size);
      last := SettleRest(coupons, waiting, next, items, owed, q, width, size);
    }
  }

  lemma {:induction false} SettleRest(coupons: map<nat, Coupon>, waiting: nat, next: seq<Receipt>, items: nat,
          owed: nat, q: Query, width: nat, size: nat)
    returns (last: seq<Receipt>)
    requires 1 <= waiting <= width && Waits(coupons, waiting - 1, next, items + size, q, width, size)
    requires owed == waiting * size
    ensures Waits(coupons, 0, last, items + owed, q, width, size)
    decreases waiting, 0
  {
    var rest := OwedRest(waiting, size, owed);
    last := Settlements(coupons, waiting - 1, next, items + size, rest, q, width, size);
    assert items + size + rest == items + owed;
  }

  lemma {:induction false} OwedRest(waiting: nat, size: nat, owed: nat) returns (rest: nat)
    requires waiting >= 1 && owed == waiting * size
    ensures rest + size == owed && rest == (waiting - 1) * size
  {
    OneMore(waiting, size);
    rest := owed - size;
  }

  /** For every limit, width and size some orderly run confirms exactly limit + (width - 1) * size items:
      the limit itself is enforced only when a buyer has one mint open at a time. */
  lemma {:induction false} BoundIsAttained(coupons: map<nat, Coupon>, q: Query, limit: nat, width: nat, size: nat)
    requires Limits(coupons, q, limit) && width >= 1 && 1 <= size <= limit
    ensures exists s ::
              Reachable(coupons, s, q, width, size) && Items(s.receipts, q, Confirmed) == limit + (width - 1) * size
  {
    Product(width, size);
    var owed: nat := width * size;
    var rest := OwedRest(width, size, owed);
    var last := FullHouse(coupons, q, limit, width, size, owed);
    assert Items(State([], last).receipts, q, Confirmed) == limit + rest;
  }

  lemma {:induction false} FullHouse(coupons: map<nat, Coupon>, q: Query, limit: nat, width: nat, size: nat, owed: nat)
    returns (last: seq<Receipt>)
    requires Limits(coupons, q, limit) && width >= 1 && 1 <= size <= limit && owed == width * size
    ensures Reachable(coupons, State([], last), q, width, size) && Items(last, q, Confirmed) == limit - size + owed
  {
    var receipts := Singles(coupons, limit - size, q, limit, width, size);
    Approvals(coupons, width, receipts, limit - size, q, limit, width, size);
    last := Settlements(coupons, width, receipts, limit - size, owed, q, width, size);
    assert Repeat(MintFor(q, size), 0) == [];
  }

  /** A run goes through the states that its steps lead to. */
  lemma {:induction false} Follow(coupons: map<nat, Coupon>, events: seq<Event>, states: seq<State>, k: nat)
    requires |states| == |events| + 1 && states[0] == START && k <= |events|
    requires forall i :: 0 <= i < |events| ==> Step(coupons, states[i], events[i]) == states[i + 1]
    ensures Run(coupons, START, events[..k]) == states[k]
  {
    if k > 0 {
      Follow(coupons, events, states, k - 1);
      assert events[..k][..k - 1] == events[..k - 1];
    }
  }

  /** The states along a run of a handful of receipts: counts of receipt lists up to two. */
  lemma {:induction false} ProcessingPair(r: Receipt, s: Receipt, q: Query)
    ensures ProcessingCount([r], q) == if r.status == Processing && Hits(q, r.mint) then 1 else 0
    ensures ProcessingCount([r, s], q)
         == ProcessingCount([r], q) + (if s.status == Processing && Hits(q, s.mint) then 1 else 0)
  {
    assert [r][..0] == [] && [r, s][..1] == [r];
  }

  lemma {:induction false} ItemsPair(r: Receipt, s: Receipt, q: Query)
    ensures Items([r], q, Confirmed) == Counted(r, q, Confirmed)
    ensures Items([r, s], q, Confirmed) == Counted(r, q, Confirmed) + Counted(s, q, Confirmed)
  {
    assert [r][..0] == [] && [r, s][..1] == [r];
  }

  /** At most one open mint in a state of at most one approval, or at most two receipts one of which is settled. */
  lemma {:induction false} FewOpen(s: State, q: Query)
    requires |s.approved| <= 1 && |s.receipts| <= 2
    requires s.approved != [] ==> forall r :: r in s.receipts ==> r.status != Processing
    requires |s.receipts| == 2 ==> s.receipts[0].status != Processing
    ensures OpenCount(s, q) <= 1
  {
    if |s.approved| == 1 {
      assert s.approved[..0] == [] && ApprovedCount(s.approved, q) <= 1;
    }
    forall i | 0 <= i < |s.receipts| ensures s.receipts[i] in s.receipts {
    }
    if |s.receipts| == 1 {
      ProcessingPair(s.receipts[0], s.receipts[0], q);
      assert s.receipts == [s.receipts[0]];
    } else if |s.receipts| == 2 {
      ProcessingPair(s.receipts[0], s.receipts[1], q);
      assert s.receipts == [s.receipts[0], s.receipts[1]];
    }
  }

  /** A run whose states are listed has at most one open mint throughout. */
  ghost predicate OneAtATime(coupons: map<nat, Coupon>, events: seq<Event>, q: Query) {
    forall k :: 0 <= k <= |events| ==> OpenCount(Run(coupons, START, events[..k]), q) <= 1
  }

  lemma {:induction false} FollowRun(coupons: map<nat, Coupon>, events: seq<Event>, states: seq<State>, q: Query)
    requires |states| == |events| + 1 && states[0] == START
    requires forall i :: 0 <= i < |events| ==> Step(coupons, states[i], events[i]) == states[i + 1]
    requires forall i :: 0 <= i <= |events| ==> OpenCount(states[i], q) <= 1
    ensures OneAtATime(coupons, events, q) && Run(coupons, START, events) == states[|events|]
  {
    forall k | 0 <= k <= |events| ensures Run(coupons, START, events[..k]) == states[k] {
      Follow(coupons, events, states, k);
    }
    assert events[..|events|] == events;
  }

  ghost function LateEvents(m: Mint): seq<Event> {
    [Approve(m), Send(0, m.user), Sync(0, NotFound), Approve(m), Send(0, m.user), Sync(1, Landed(false)),
      Webhook(0, None)]
  }

  ghost function LateStates(m: Mint): seq<State> {
    var p, f, c := Receipt(m, Processing), Receipt(m, Failed), Receipt(m, Confirmed);
    [START, State([m], []), State([], [p]), State([], [f]), State([m], [f]), State([], [f, p]), State([], [f, c]),
      State([], [c, c])]
  }

  lemma {:induction false} LateSteps(coupons: map<nat, Coupon>, q: Query, limit: nat, i: nat)
    requires Limits(coupons, q, limit) && limit >= 1 && i < 7
    ensures var m := MintFor(q, limit);
            Step(coupons, LateStates(m)[i], LateEvents(m)[i]) == LateStates(m)[i + 1]
  {
    var m := MintFor(q, limit);
    assert QueryFor(coupons[q.couponId].couponType, m) == Some(q);
    if i == 3 {
      ItemsPair(Receipt(m, Failed), Receipt(m, Failed), q);
    }
  }

  /** What an unorderly webhook does to a buyer with one mint open at a time: a receipt the sync step gave up
      on is confirmed after the limit was used up again. */
  lemma {:induction false} LateWebhookBreaksLimit(coupons: map<nat, Coupon>, q: Query, limit: nat)
    requires Limits(coupons, q, limit) && limit >= 1
    ensures var events := LateEvents(MintFor(q, limit));
            OneAtATime(coupons, events, q) && Items(Run(coupons, START, events).receipts, q, Confirmed) == 2 * limit
  {
    var m := MintFor(q, limit);
    var events, states := LateEvents(m), LateStates(m);
    forall i | 0 <= i < 7 ensures Step(coupons, states[i], events[i]) == states[i + 1] {
      LateSteps(coupons, q, limit, i);
    }
    forall i | 0 <= i <= 7 ensures OpenCount(states[i], q) <= 1 {
      FewOpen(states[i], q);
    }
    FollowRun(coupons, events, states, q);
    ItemsPair(Receipt(m, Confirmed), Receipt(m, Confirmed), q);
  }

  ghost function ResendEvents(m: Mint): seq<Event> {
    [Approve(m), Send(0, m.user), Sync(0, Landed(false)), Resend(0, m.user), Sync(1, Landed(false))]
  }

  ghost function ResendStates(m: Mint): seq<State> {
    var p, c := Receipt(m, Processing), Receipt(m, Confirmed);
    [START, State([m], []), State([], [p]), State([], [c]), State([], [c, p]), State([], [c, c])]
  }

  lemma {:induction false} ResendSteps(coupons: map<nat, Coupon>, q: Query, limit: nat, i: nat)
    requires Limits(coupons, q, limit) && limit >= 1 && i < 5
    ensures var m := MintFor(q, limit);
            Step(coupons, ResendStates(m)[i], ResendEvents(m)[i]) == ResendStates(m)[i + 1]
  {
    assert QueryFor(coupons[q.couponId].couponType, MintFor(q, limit)) == Some(q);
  }

  /** One approval, one transaction, sent again after it was confirmed: twice the limit in confirmed receipts,
      with one mint open at a time. */
  lemma {:induction false} ResendBreaksLimit(coupons: map<nat, Coupon>, q: Query, limit: nat)
    requires Limits(coupons, q, limit) && limit >= 1
    ensures var events := ResendEvents(MintFor(q, limit));
            OneAtATime(coupons, events, q) && Items(Run(coupons, START, events).receipts, q, Confirmed) == 2 * limit
  {
    var m := MintFor(q, limit);
    var events, states := ResendEvents(m), ResendStates(m);
    forall i | 0 <= i < 5 ensures Step(coupons, states[i], events[i]) == states[i + 1] {
      ResendSteps(coupons, q, limit, i);
    }
    forall i | 0 <= i <= 5 ensures OpenCount(states[i], q) <= 1 {
      FewOpen(states[i], q);
    }
    FollowRun(coupons, events, states, q);
    ItemsPair(Receipt(m, Confirmed), Receipt(m, Confirmed), q);
  }

  /** The user of `q` uses up the limit, then sends a transaction approved for `other`. */
  ghost function BorrowEvents(q: Query, other: nat, n: nat): seq<Event>
    requires q.ByUser?
  {
    var m, borrowed := MintFor(q, n), MintFor(ByUser(other, q.couponId), n);
    [Approve(m), Send(0, m.user), Sync(0, Landed(false)), Approve(borrowed), Send(0, m.user), Sync(1, Landed(false))]
  }

  ghost function BorrowStates(q: Query, other: nat, n: nat): seq<State>
    requires q.ByUser?
  {
    var m, borrowed := MintFor(q, n), MintFor(ByUser(other, q.couponId), n);
    var p, c := Receipt(m, Processing), Receipt(m, Confirmed);
    [START, State([m], []), State([], [p]), State([], [c]), State([borrowed], [c]), State([], [c, p]),
      State([], [c, c])]
  }

  lemma {:induction false} BorrowSteps(coupons: map<nat, Coupon>, q: Query, other: nat, limit: nat, i: nat)
    requires Limits(coupons, q, limit) && limit >= 1 && q.ByUser? && other != q.user && i < 6
    ensures Step(coupons, BorrowStates(q, other, limit)[i], BorrowEvents(q, other, limit)[i])
            == BorrowStates(q, other, limit)[i + 1]
  {
    var m, theirs := MintFor(q, limit), ByUser(other, q.couponId);
    var coupon := coupons[q.couponId];
    assert QueryFor(coupon.couponType, m) == Some(q)
           && QueryFor(coupon.couponType, MintFor(theirs, limit)) == Some(theirs);
    if i == 3 {
      ItemsPair(Receipt(m, Confirmed), Receipt(m, Confirmed), theirs);
    }
  }

  /** For a coupon counted by user: a transaction approved for somebody else, sent by this user, is counted
      against a limit that no approval of theirs was checked with. */
  lemma {:induction false} BorrowedApprovalBreaksLimit(coupons: map<nat, Coupon>, q: Query, other: nat, limit: nat)
    requires Limits(coupons, q, limit) && limit >= 1 && q.ByUser? && other != q.user
    ensures var events := BorrowEvents(q, other, limit);
            OneAtATime(coupons, events, q) && Items(Run(coupons, START, events).receipts, q, Confirmed) == 2 * limit
  {
    var m := MintFor(q, limit);
    var events, states := BorrowEvents(q, other, limit), BorrowStates(q, other, limit);
    forall i | 0 <= i < 6 ensures Step(coupons, states[i], events[i]) == states[i + 1] {
      BorrowSteps(coupons, q, other, limit, i);
    }
    forall i | 0 <= i <= 6 ensures OpenCount(states[i], q) <= 1 {
      FewOpen(states[i], q);
    }
    FollowRun(coupons, events, states, q);
    ItemsPair(Receipt(m, Confirmed), Receipt(m, Confirmed), q);
  }
}

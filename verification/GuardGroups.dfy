/** Coupons and currency settings in the database against guard groups on chain. */
module GuardGroups {
  import opened Wrappers
  import opened Constants
  import opened CouponLabels

  datatype Payment = SolPayment(lamports: nat) | TokenPayment(amount: nat, mint: string)

  /** An on-chain guard group: its payment guard and, where set, the cap on redemptions. */
  datatype Group = Group(groupLabel: Label, payment: Payment, redeemedMaximum: Option<nat>)

  datatype CouponRow = CouponRow(id: nat, couponType: CouponType, supply: nat)
  datatype SettingRow = SettingRow(groupLabel: Label, couponId: nat, splTokenAddress: string, mintPrice: nat)

  /** One candy machine: its rows, the next coupon id, and its groups on chain. */
  datatype Machine = Machine(coupons: seq<CouponRow>, settings: seq<SettingRow>, nextId: nat, groups: seq<Group>)

  datatype Outcome = Done | TokenNotSupported | CouponNotFound | GroupExists | RowConflict | RowNotFound

  function PaymentOf(splTokenAddress: string, mintPrice: nat): Payment {
    if splTokenAddress == SOL_ADDRESS then SolPayment(mintPrice) else TokenPayment(mintPrice, splTokenAddress)
  }

  // ---------- creation ----------

  function CouponGroups(settings: seq<LabelledSetting>, supply: nat): seq<Group> {
    if settings == [] then []
    else [Group(settings[0].groupLabel, PaymentOf(settings[0].splTokenAddress, settings[0].mintPrice), Some(supply))]
           + CouponGroups(settings[1..], supply)
  }

  function AllGroups(coupons: seq<LabelledCoupon>): seq<Group> {
    if coupons == [] then []
    else CouponGroups(coupons[0].currencySettings, coupons[0].supply) + AllGroups(coupons[1..])
  }

  const AUTHORITY_GROUP := Group(AuthorityLabel, SolPayment(0), None)

  method ToUmiGroups(coupons: seq<LabelledCoupon>) returns (groups: seq<Group>)
    ensures groups == [AUTHORITY_GROUP] + AllGroups(coupons)
  {
    groups := [AUTHORITY_GROUP];
    ghost var coming := AllGroups(coupons);
    for c := 0 to |coupons|
      invariant groups + AllGroups(coupons[c..]) == [AUTHORITY_GROUP] + coming
    {
      var coupon := coupons[c];
      ghost var later := AllGroups(coupons[c + 1..]);
      assert coupons[c..][1..] == coupons[c + 1..];
      assert coupon.currencySettings[0..] == coupon.currencySettings;
      for s := 0 to |coupon.currencySettings|
        invariant groups + CouponGroups(coupon.currencySettings[s..], coupon.supply) + later
                  == [AUTHORITY_GROUP] + coming
      {
        var setting := coupon.currencySettings[s];
        assert coupon.currencySettings[s..][1..] == coupon.currencySettings[s + 1..];
        var paymentGuard: Payment;
        if setting.splTokenAddress == SOL_ADDRESS {
          paymentGuard := SolPayment(setting.mintPrice);
        } else {
          paymentGuard := TokenPayment(setting.mintPrice, setting.splTokenAddress);
        }
        groups := groups + [Group(setting.groupLabel, paymentGuard, Some(coupon.supply))];
      }
    }
  }

  function CouponSettings(settings: seq<LabelledSetting>, couponId: nat): seq<SettingRow> {
    if settings == [] then []
    else [SettingRow(settings[0].groupLabel, couponId, settings[0].splTokenAddress, settings[0].mintPrice)]
           + CouponSettings(settings[1..], couponId)
  }

  function AllSettings(coupons: seq<LabelledCoupon>, couponId: nat): seq<SettingRow>
    decreases |coupons|
  {
    if coupons == [] then []
    else CouponSettings(coupons[0].currencySettings, couponId) + AllSettings(coupons[1..], couponId + 1)
  }

  function CouponRows(coupons: seq<LabelledCoupon>, couponId: nat): seq<CouponRow>
    decreases |coupons|
  {
    if coupons == [] then []
    else [CouponRow(couponId, coupons[0].couponType, coupons[0].supply)] + CouponRows(coupons[1..], couponId + 1)
  }

  /** The unique index on (token, coupon) rejects a request that prices a coupon twice in one token. */
  predicate TokensDistinct(coupons: seq<LabelledCoupon>) {
    forall c, s, s' :: 0 <= c < |coupons| && 0 <= s < s' < |coupons[c].currencySettings| ==>
      coupons[c].currencySettings[s].splTokenAddress != coupons[c].currencySettings[s'].splTokenAddress
  }

  /** The machine creation leaves behind, the vault coupon last; the vault's group is the authority group. */
  function CreatedMachine(coupons: seq<LabelledCoupon>): Machine {
    var n := |coupons|;
    Machine(CouponRows(coupons, 0) + [CouponRow(n, WhitelistedWallet, 0)],
            AllSettings(coupons, 0) + [SettingRow(AuthorityLabel, n, SOL_ADDRESS, 0)],
            n + 1,
            [AUTHORITY_GROUP] + AllGroups(coupons))
  }

  // ---------- later changes ----------

  function CountRows(coupons: seq<CouponRow>, t: CouponType): nat {
    if coupons == [] then 0
    else CountRows(coupons[..|coupons| - 1], t) + (if coupons[|coupons| - 1].couponType == t then 1 else 0)
  }

  function CountSettings(settings: seq<SettingRow>, couponId: nat): nat {
    if settings == [] then 0
    else CountSettings(settings[..|settings| - 1], couponId)
         + (if settings[|settings| - 1].couponId == couponId then 1 else 0)
  }

  predicate HasGroup(groups: seq<Group>, l: Label) {
    exists g :: g in groups && g.groupLabel == l
  }

  predicate HasSetting(settings: seq<SettingRow>, l: Label) {
    exists s :: s in settings && s.groupLabel == l
  }

  /** The coupon already has a price in this token. */
  predicate TokenTaken(settings: seq<SettingRow>, couponId: nat, token: string) {
    exists s :: s in settings && s.couponId == couponId && s.splTokenAddress == token
  }

  function RemoveGroup(groups: seq<Group>, l: Label): (r: seq<Group>)
    ensures forall g :: g in r <==> g in groups && g.groupLabel != l
  {
    if groups == [] then []
    else (if groups[0].groupLabel != l then [groups[0]] else []) + RemoveGroup(groups[1..], l)
  }

  /** Replace the group of that label and push the new one; nothing changes when the transaction does not land,
      because updateCoreCandyMachine catches the error. */
  function PutGroup(groups: seq<Group>, g: Group, landed: bool): seq<Group> {
    if landed then RemoveGroup(groups, g.groupLabel) + [g] else groups
  }

  function FindCoupon(coupons: seq<CouponRow>, couponId: nat): (r: Option<CouponRow>)
    ensures r.Some? ==> r.value in coupons && r.value.id == couponId
    ensures r.None? ==> forall c :: c in coupons ==> c.id != couponId
  {
    if coupons == [] then None
    else if coupons[0].id == couponId then Some(coupons[0])
    else FindCoupon(coupons[1..], couponId)
  }

  function AddCoupon(m: Machine, t: CouponType, supply: nat, token: string, price: nat, supported: bool,
          landed: bool): (Outcome, Machine) {
    var l := CouponLabel(t, CountRows(m.coupons, t), 0);
    if !supported then (TokenNotSupported, m)
    else if HasGroup(m.groups, l) then (GroupExists, m)
    else
      var m' := m.(groups := PutGroup(m.groups, Group(l, PaymentOf(token, price), Some(supply)), landed));
      if HasSetting(m.settings, l) then (RowConflict, m')
      else (Done, m'.(coupons := m.coupons + [CouponRow(m.nextId, t, supply)],
                      settings := m.settings + [SettingRow(l, m.nextId, token, price)],
                      nextId := m.nextId + 1))
  }

  function AddCurrency(m: Machine, couponId: nat, token: string, price: nat, supported: bool,
          landed: bool): (Outcome, Machine) {
    if !supported then (TokenNotSupported, m)
    else
      var coupon := FindCoupon(m.coupons, couponId);
      if coupon.None? then (CouponNotFound, m)
      else
        var t := coupon.value.couponType;
        var l := CouponLabel(t, CountRows(m.coupons, t), CountSettings(m.settings, couponId));
        if HasGroup(m.groups, l) then (GroupExists, m)
        else
          var m' := m.(groups := PutGroup(m.groups, Group(l, PaymentOf(token, price), Some(coupon.value.supply)),
                      landed));
          if HasSetting(m.settings, l) || TokenTaken(m.settings, couponId, token) then (RowConflict, m')
          else (Done, m'.(settings := m.settings + [SettingRow(l, couponId, token, price)]))
  }

  function SetPrice(settings: seq<SettingRow>, l: Label, price: nat): (r: seq<SettingRow>)
    ensures |r| == |settings|
    ensures forall i :: 0 <= i < |r| ==>
              r[i] == if settings[i].groupLabel == l then settings[i].(mintPrice := price) else settings[i]
  {
    if settings == [] then []
    else [if settings[0].groupLabel == l then settings[0].(mintPrice := price) else settings[0]]
         + SetPrice(settings[1..], l, price)
  }

  /** The price tool: the new group carries no redemption cap. */
  function UpdatePrice(m: Machine, l: Label, token: string, price: nat, landed: bool): (Outcome, Machine) {
    var m' := m.(groups := PutGroup(m.groups, Group(l, PaymentOf(token, price), None), landed));
    if !HasSetting(m.settings, l) then (RowNotFound, m') else (Done, m'.(settings := SetPrice(m.settings, l, price)))
  }

  // ---------- what each change leaves, field by field ----------

  /** The groups after `token` and `price` were put under the label `l` with the cap `cap`: that group, and the
      others as they were; nothing changed when the transaction did not land. */
  ghost predicate GroupStored(before: seq<Group>, after: seq<Group>, l: Label, token: string, price: nat,
          cap: Option<nat>, landed: bool)
  {
    && (!landed ==> after == before)
    && (landed ==>
          && (exists g :: g in after && g.groupLabel == l)
          && (forall g :: g in after && g.groupLabel == l ==>
                && g.redeemedMaximum == cap
                && (token == SOL_ADDRESS ==> g.payment == SolPayment(price))
                && (token != SOL_ADDRESS ==> g.payment == TokenPayment(price, token)))
          && (forall g: Group :: g.groupLabel != l ==> (g in after <==> g in before)))
  }

  lemma {:induction false} PutStored(groups: seq<Group>, l: Label, token: string, price: nat, cap: Option<nat>,
          landed: bool)
    ensures GroupStored(groups, PutGroup(groups, Group(l, PaymentOf(token, price), cap), landed), l, token, price, cap,
                        landed)
  {
    var g := Group(l, PaymentOf(token, price), cap);
    var after := PutGroup(groups, g, landed);
    if landed {
      assert g in after;
      forall h: Group | h.groupLabel != l ensures h in after <==> h in groups {
        assert h in RemoveGroup(groups, l) <==> h in groups;
      }
    }
  }

  /** One row more, the others as they were. */
  ghost predicate SettingStored(before: seq<SettingRow>, after: seq<SettingRow>, l: Label, couponId: nat, token: string,
          price: nat)
  {
    && |after| == |before| + 1 && after[..|before|] == before
    && after[|before|].groupLabel == l && after[|before|].couponId == couponId
    && after[|before|].splTokenAddress == token && after[|before|].mintPrice == price
  }

  ghost predicate CouponStored(m: Machine, after: Machine, l: Label, t: CouponType, supply: nat, token: string,
          price: nat, landed: bool)
  {
    && |after.coupons| == |m.coupons| + 1 && after.coupons[..|m.coupons|] == m.coupons
    && after.coupons[|m.coupons|].id == m.nextId && after.coupons[|m.coupons|].couponType == t
    && after.coupons[|m.coupons|].supply == supply
    && SettingStored(m.settings, after.settings, l, m.nextId, token, price)
    && GroupStored(m.groups, after.groups, l, token, price, Some(supply), landed)
  }

  ghost function OfType(coupons: seq<CouponRow>, t: CouponType): set<nat> {
    set i: nat | i < |coupons| && coupons[i].couponType == t
  }

  ghost function OfCoupon(settings: seq<SettingRow>, couponId: nat): set<nat> {
    set i: nat | i < |settings| && settings[i].couponId == couponId
  }

  /** The two counts of the database are the numbers of such rows. */
  lemma {:induction false} CountsAreNumbers(coupons: seq<CouponRow>, t: CouponType)
    ensures CountRows(coupons, t) == |OfType(coupons, t)|
  {
    if coupons == [] {
      assert OfType(coupons, t) == {};
    } else {
      var n := |coupons| - 1;
      CountsAreNumbers(coupons[..n], t);
      OneMoreOfType(coupons, t, n);
    }
  }

  lemma {:induction false} OneMoreOfType(coupons: seq<CouponRow>, t: CouponType, n: nat)
    requires |coupons| == n + 1
    ensures |OfType(coupons, t)| == |OfType(coupons[..n], t)| + if coupons[n].couponType == t then 1 else 0
  {
    var before := OfType(coupons[..n], t);
    assert n !in before;
    assert OfType(coupons, t) == before + if coupons[n].couponType == t then {n} else {};
  }

  lemma {:induction false} SettingCountsAreNumbers(settings: seq<SettingRow>, couponId: nat)
    ensures CountSettings(settings, couponId) == |OfCoupon(settings, couponId)|
  {
    if settings == [] {
      assert OfCoupon(settings, couponId) == {};
    } else {
      var n := |settings| - 1;
      SettingCountsAreNumbers(settings[..n], couponId);
      OneMoreOfCoupon(settings, couponId, n);
    }
  }

  lemma {:induction false} OneMoreOfCoupon(settings: seq<SettingRow>, couponId: nat, n: nat)
    requires |settings| == n + 1
    ensures |OfCoupon(settings, couponId)|
         == |OfCoupon(settings[..n], couponId)| + if settings[n].couponId == couponId then 1 else 0
  {
    var before := OfCoupon(settings[..n], couponId);
    assert n !in before;
    assert OfCoupon(settings, couponId) == before + if settings[n].couponId == couponId then {n} else {};
  }

  /** Adding a coupon goes through exactly when its token is supported and neither a group nor a row has the label of
      its type, the number of coupons of that type, and 0. It then has the given type and supply, its one setting
      the given token and price, and the group under its label asks for that price and is capped by that supply. */
  lemma {:induction false} AddCouponStores(m: Machine, l: Label, t: CouponType, supply: nat, token: string, price: nat,
          supported: bool, landed: bool)
    requires l == CouponLabel(t, |OfType(m.coupons, t)|, 0)
    ensures var (outcome, after) := AddCoupon(m, t, supply, token, price, supported, landed);
            && (outcome == Done
                <==> supported && (forall g :: g in m.groups ==> g.groupLabel != l)
                     && (forall s :: s in m.settings ==> s.groupLabel != l))
            && (outcome == Done ==> CouponStored(m, after, l, t, supply, token, price, landed))
  {
    CountsAreNumbers(m.coupons, t);
    PutStored(m.groups, l, token, price, Some(supply), landed);
  }

  /** A further currency goes through exactly when its token is supported, its coupon exists and has no price in that
      token, and the label is free; its group is capped by the coupon's supply. */
  lemma {:induction false} AddCurrencyStores(m: Machine, coupon: CouponRow, l: Label, token: string, price: nat,
          supported: bool, landed: bool)
    requires FindCoupon(m.coupons, coupon.id) == Some(coupon)
    requires l == CouponLabel(coupon.couponType, |OfType(m.coupons, coupon.couponType)|,
                              |OfCoupon(m.settings, coupon.id)|)
    ensures var (outcome, after) := AddCurrency(m, coupon.id, token, price, supported, landed);
            && (outcome == Done
                <==> supported && (forall g :: g in m.groups ==> g.groupLabel != l)
                     && forall s :: s in m.settings ==>
                          s.groupLabel != l && (s.couponId == coupon.id ==> s.splTokenAddress != token))
            && (outcome == Done ==>
                  && after.coupons == m.coupons
                  && SettingStored(m.settings, after.settings, l, coupon.id, token, price)
                  && GroupStored(m.groups, after.groups, l, token, price, Some(coupon.supply), landed))
  {
    CountsAreNumbers(m.coupons, coupon.couponType);
    SettingCountsAreNumbers(m.settings, coupon.id);
    PutStored(m.groups, l, token, price, Some(coupon.supply), landed);
  }

  /** The price tool: the row of that label gets the price and keeps its token; the group has the given token, the
      price and no cap. */
  lemma {:induction false} UpdatePriceStores(m: Machine, l: Label, token: string, price: nat, landed: bool)
    ensures var (outcome, after) := UpdatePrice(m, l, token, price, landed);
            && (outcome == Done <==> exists s :: s in m.settings && s.groupLabel == l)
            && after.coupons == m.coupons && |after.settings| == |m.settings|
            && (forall i :: 0 <= i < |m.settings| ==>
                  && after.settings[i].groupLabel == m.settings[i].groupLabel
                  && after.settings[i].couponId == m.settings[i].couponId
                  && after.settings[i].splTokenAddress == m.settings[i].splTokenAddress
                  && after.settings[i].mintPrice
                     == if m.settings[i].groupLabel == l then price else m.settings[i].mintPrice)
            && GroupStored(m.groups, after.groups, l, token, price, None, landed)
  {
    PutStored(m.groups, l, token, price, None, landed);
    if !HasSetting(m.settings, l) {
      forall i | 0 <= i < |m.settings| ensures m.settings[i].groupLabel != l {
        assert m.settings[i] in m.settings;
      }
    }
  }

  /** The rows and the account of one machine, changed in place. */
  class CandyMachineStore {
    var coupons: seq<CouponRow>
    var settings: seq<SettingRow>
    var nextId: nat
    var groups: seq<Group>

    function State(): Machine
      reads this
    {
      Machine(coupons, settings, nextId, groups)
    }

    constructor (couponsWithLabel: seq<LabelledCoupon>)
      ensures State() == CreatedMachine(couponsWithLabel)
    {
      groups := [];
      coupons := CouponRows(couponsWithLabel, 0) + [CouponRow(|couponsWithLabel|, WhitelistedWallet, 0)];
      settings := AllSettings(couponsWithLabel, 0) + [SettingRow(AuthorityLabel, |couponsWithLabel|, SOL_ADDRESS, 0)];
      nextId := |couponsWithLabel| + 1;
      new;
      var onChain := ToUmiGroups(couponsWithLabel);
      groups := onChain;
    }

    /** addCoreCandyMachineGroupOnChain: refuses an existing label, otherwise replaces and pushes. */
    method AddGroupOnChain(g: Group, landed: bool) returns (added: bool)
      modifies this`groups
      ensures added == !HasGroup(old(groups), g.groupLabel)
      ensures groups == if added then PutGroup(old(groups), g, landed) else old(groups)
    {
      if HasGroup(groups, g.groupLabel) {
        return false;
      }
      var resolvedGroups := RemoveGroup(groups, g.groupLabel);
      resolvedGroups := resolvedGroups + [g];
      if landed {
        groups := resolvedGroups;
      }
      added := true;
    }

    method AddCandyMachineCoupon(t: CouponType, supply: nat, token: string, price: nat, supported: bool, landed: bool)
      returns (outcome: Outcome)
      modifies this
      ensures (outcome, State()) == AddCoupon(old(State()), t, supply, token, price, supported, landed)
      ensures outcome == Done ==>
                CouponStored(old(State()), State(), CouponLabel(t, |OfType(old(coupons), t)|, 0), t, supply, token,
                             price, landed)
    {
      AddCouponStores(State(), CouponLabel(t, |OfType(coupons, t)|, 0), t, supply, token, price, supported, landed);
      var couponTypeIteration := CountRows(coupons, t);
      var l := CouponLabel(t, couponTypeIteration, 0);
      if !supported {
        return TokenNotSupported;
      }
      var added := AddGroupOnChain(Group(l, PaymentOf(token, price), Some(supply)), landed);
      if !added {
        return GroupExists;
      }
      if HasSetting(settings, l) {
        return RowConflict;
      }
      coupons := coupons + [CouponRow(nextId, t, supply)];
      settings := settings + [SettingRow(l, nextId, token, price)];
      nextId := nextId + 1;
      outcome := Done;
    }

    method AddCandyMachineCouponCurrency(couponId: nat, token: string, price: nat, supported: bool, landed: bool)
      returns (outcome: Outcome)
      modifies this
      ensures (outcome, State()) == AddCurrency(old(State()), couponId, token, price, supported, landed)
      ensures outcome == Done ==>
                exists coupon, l :: && coupon in old(coupons) && coupon.id == couponId
                                    && SettingStored(old(settings), settings, l, couponId, token, price)
                                    && GroupStored(old(groups), groups, l, token, price, Some(coupon.supply), landed)
    {
      if !supported {
        return TokenNotSupported;
      }
      var candyMachineCoupon := FindCoupon(coupons, couponId);
      if candyMachineCoupon.None? {
        return CouponNotFound;
      }
      var couponTypeIteration := CountRows(coupons, candyMachineCoupon.value.couponType);
      var currencyCouponIteration := CountSettings(settings, couponId);
      var l := CouponLabel(candyMachineCoupon.value.couponType, couponTypeIteration, currencyCouponIteration);
      var added := AddGroupOnChain(Group(l, PaymentOf(token, price), Some(candyMachineCoupon.value.supply)), landed);
      if !added {
        return GroupExists;
      }
      if HasSetting(settings, l) || TokenTaken(settings, couponId, token) {
        return RowConflict;
      }
      settings := settings + [SettingRow(l, couponId, token, price)];
      outcome := Done;
      assert groups == PutGroup(old(groups),
                                Group(l, PaymentOf(token, price), Some(candyMachineCoupon.value.supply)), landed);
      PutStored(old(groups), l, token, price, Some(candyMachineCoupon.value.supply), landed);
      assert SettingStored(old(settings), settings, l, couponId, token, price);
    }

    method UpdateGroupPrice(l: Label, token: string, price: nat, landed: bool) returns (outcome: Outcome)
      modifies this
      ensures (outcome, State()) == UpdatePrice(old(State()), l, token, price, landed)
      ensures GroupStored(old(groups), groups, l, token, price, None, landed)
    {
      UpdatePriceStores(State(), l, token, price, landed);
      var resolvedGroups := RemoveGroup(groups, l);
      resolvedGroups := resolvedGroups + [Group(l, PaymentOf(token, price), None)];
      if landed {
        groups := resolvedGroups;
      }
      if !HasSetting(settings, l) {
        return RowNotFound;
      }
      settings := SetPrice(settings, l, price);
      outcome := Done;
    }
  }

  lemma {:induction false} DistinctAsAsked(coupons: seq<CouponInput>, cs: seq<LabelledCoupon>)
    requires |cs| == |coupons| && forall c :: 0 <= c < |coupons| ==> IsLabelled(coupons, c, cs[c])
    ensures TokensDistinct(cs)
            <==> forall c, s, s' :: 0 <= c < |coupons| && 0 <= s < s' < |coupons[c].currencySettings| ==>
                   TokenOrSol(coupons[c].currencySettings[s].splTokenAddress)
                   != TokenOrSol(coupons[c].currencySettings[s'].splTokenAddress)
  {
    forall c: nat, s: nat | c < |coupons| && s < |coupons[c].currencySettings|
      ensures |cs[c].currencySettings| == |coupons[c].currencySettings|
              && cs[c].currencySettings[s].splTokenAddress
                 == TokenOrSol(coupons[c].currencySettings[s].splTokenAddress)
    {
      assert IsLabelled(coupons, c, cs[c]);
    }
    if !TokensDistinct(cs) {
      var c, s, s' :| 0 <= c < |cs| && 0 <= s < s' < |cs[c].currencySettings|
                      && cs[c].currencySettings[s].splTokenAddress == cs[c].currencySettings[s'].splTokenAddress;
      assert IsLabelled(coupons, c, cs[c]);
    }
  }

  /** Creation: labels, groups, rows; the rows are rejected when a coupon prices one token twice. */
  method CreateStore(coupons: seq<CouponInput>)
    returns (couponsWithLabel: seq<LabelledCoupon>, store: CandyMachineStore?)
    ensures |couponsWithLabel| == |coupons| && forall c :: 0 <= c < |coupons| ==>
              IsLabelled(coupons, c, couponsWithLabel[c])
    ensures store != null
            <==> forall c, s, s' :: 0 <= c < |coupons| && 0 <= s < s' < |coupons[c].currencySettings| ==>
                   TokenOrSol(coupons[c].currencySettings[s].splTokenAddress)
                   != TokenOrSol(coupons[c].currencySettings[s'].splTokenAddress)
    ensures store != null ==> store.State() == CreatedMachine(couponsWithLabel)
  {
    couponsWithLabel := GetCouponsWithLabels(coupons);
    DistinctAsAsked(coupons, couponsWithLabel);
    if TokensDistinct(couponsWithLabel) {
      store := new CandyMachineStore(couponsWithLabel);
    } else {
      store := null;
    }
  }
}

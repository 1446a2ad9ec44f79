/** Labels over every run of create, add-coupon, add-currency and price update: when they stay unique, when a
    coupon can always be added, and when the chain agrees with the database. */
module CouponRuns {
  import opened Wrappers
  import opened Constants
  import opened CouponLabels
  import opened GuardGroups

  // ---------- the invariant ----------

  /** Iterations in use stay below the number of coupons of their type, or reach it with a positive currency
      number: the pair (count, 0) is always free for the next coupon. */
  predicate InRange(l: Label, coupons: seq<CouponRow>) {
    match l
    case AuthorityLabel => true
    case CouponLabel(t, i, j) => i < CountRows(coupons, t) || (i == CountRows(coupons, t) && j >= 1)
  }

  ghost predicate UniqueSettings(settings: seq<SettingRow>) {
    forall i, j :: 0 <= i < j < |settings| ==> settings[i].groupLabel != settings[j].groupLabel
  }

  ghost predicate UniqueGroups(groups: seq<Group>) {
    forall i, j :: 0 <= i < j < |groups| ==> groups[i].groupLabel != groups[j].groupLabel
  }

  ghost predicate LabelsInRange(m: Machine) {
    && (forall s :: s in m.settings ==> InRange(s.groupLabel, m.coupons))
    && (forall g :: g in m.groups ==> InRange(g.groupLabel, m.coupons))
  }

  ghost predicate Inv(m: Machine) {
    && LabelsInRange(m)
    && UniqueSettings(m.settings)
    && UniqueGroups(m.groups)
    && (forall c :: c in m.coupons ==> CountSettings(m.settings, c.id) > 0)
  }

  // ---------- sequence facts ----------

  lemma {:induction false} CountRowsAppend(coupons: seq<CouponRow>, c: CouponRow, t: CouponType)
    ensures CountRows(coupons + [c], t) == CountRows(coupons, t) + (if c.couponType == t then 1 else 0)
  {
    assert (coupons + [c])[..|coupons|] == coupons;
  }

  lemma {:induction false} CountSettingsAppend(settings: seq<SettingRow>, s: SettingRow, id: nat)
    ensures CountSettings(settings + [s], id) == CountSettings(settings, id) + (if s.couponId == id then 1 else 0)
  {
    assert (settings + [s])[..|settings|] == settings;
  }

  lemma {:induction false} RangeGrows(l: Label, coupons: seq<CouponRow>, c: CouponRow)
    requires InRange(l, coupons)
    ensures InRange(l, coupons + [c])
  {
    if l.CouponLabel? {
      CountRowsAppend(coupons, c, l.couponType);
    }
  }

  lemma {:induction false} RemoveKeepsUnique(groups: seq<Group>, l: Label)
    requires UniqueGroups(groups)
    ensures UniqueGroups(RemoveGroup(groups, l))
  {
    if groups != [] {
      assert UniqueGroups(groups[1..]);
      RemoveKeepsUnique(groups[1..], l);
      forall g | g in RemoveGroup(groups[1..], l) ensures g.groupLabel != groups[0].groupLabel {
        var k :| 0 <= k < |groups[1..]| && groups[1..][k] == g;
        assert groups[k + 1] == g;
      }
    }
  }

  lemma {:induction false} PutKeepsUnique(groups: seq<Group>, g: Group, landed: bool)
    requires UniqueGroups(groups)
    ensures UniqueGroups(PutGroup(groups, g, landed))
    ensures forall h :: h in PutGroup(groups, g, landed) ==> h in groups || h == g
  {
    RemoveKeepsUnique(groups, g.groupLabel);
    var kept := RemoveGroup(groups, g.groupLabel);
    forall i | 0 <= i < |kept| ensures kept[i].groupLabel != g.groupLabel {
      assert kept[i] in kept;
    }
  }

  lemma {:induction false} AppendKeepsUnique(settings: seq<SettingRow>, s: SettingRow)
    requires UniqueSettings(settings) && !HasSetting(settings, s.groupLabel)
    ensures UniqueSettings(settings + [s])
  {
    forall i | 0 <= i < |settings| ensures settings[i].groupLabel != s.groupLabel {
      assert settings[i] in settings;
    }
  }

  lemma {:induction false} SameOwnersSameCount(a: seq<SettingRow>, b: seq<SettingRow>, id: nat)
    requires |a| == |b| && forall i :: 0 <= i < |a| ==> a[i].couponId == b[i].couponId
    ensures CountSettings(a, id) == CountSettings(b, id)
  {
    if a != [] {
      SameOwnersSameCount(a[..|a| - 1], b[..|b| - 1], id);
    }
  }

  // ---------- every operation keeps it ----------

  datatype Op =
    | OpAddCoupon(couponType: CouponType, supply: nat, token: string, price: nat, supported: bool, landed: bool)
    | OpAddCurrency(couponId: nat, token: string, price: nat, supported: bool, landed: bool)
    | OpUpdatePrice(groupLabel: Label, token: string, price: nat, landed: bool)

  function Step(m: Machine, op: Op): (Outcome, Machine) {
    match op
    case OpAddCoupon(t, supply, token, price, supported, landed) =>
      AddCoupon(m, t, supply, token, price, supported, landed)
    case OpAddCurrency(couponId, token, price, supported, landed) =>
      AddCurrency(m, couponId, token, price, supported, landed)
    case OpUpdatePrice(l, token, price, landed) => UpdatePrice(m, l, token, price, landed)
  }

  /** The price tool is pointed at a label the machine already uses, in the database or on chain. */
  predicate KnownLabel(m: Machine, op: Op) {
    op.OpUpdatePrice? ==> HasSetting(m.settings, op.groupLabel) || HasGroup(m.groups, op.groupLabel)
  }

  function Run(m: Machine, ops: seq<Op>): Machine {
    if ops == [] then m else Step(Run(m, ops[..|ops| - 1]), ops[|ops| - 1]).1
  }

  ghost predicate KnownLabels(m: Machine, ops: seq<Op>) {
    ops == [] || (KnownLabels(m, ops[..|ops| - 1]) && KnownLabel(Run(m, ops[..|ops| - 1]), ops[|ops| - 1]))
  }

  /** Adding a coupon succeeds from every state of the invariant: the label is new on chain and in the
      database, whatever updates were lost before. */
  lemma {:induction false} AddCouponKeepsInv(m: Machine, op: Op)
    requires Inv(m) && op.OpAddCoupon?
    ensures Inv(Step(m, op).1)
    ensures Step(m, op).0 == if op.supported then Done else TokenNotSupported
  {
    if op.supported {
      var t := op.couponType;
      var l := CouponLabel(t, CountRows(m.coupons, t), 0);
      assert !InRange(l, m.coupons);
      var c := CouponRow(m.nextId, t, op.supply);
      var s := SettingRow(l, m.nextId, op.token, op.price);
      var m' := Step(m, op).1;
      PutKeepsUnique(m.groups, Group(l, PaymentOf(op.token, op.price), Some(op.supply)), op.landed);
      AppendKeepsUnique(m.settings, s);
      CountRowsAppend(m.coupons, c, t);
      forall k: Label | InRange(k, m.coupons) ensures InRange(k, m'.coupons) {
        RangeGrows(k, m.coupons, c);
      }
      forall d | d in m'.coupons ensures CountSettings(m'.settings, d.id) > 0 {
        CountSettingsAppend(m.settings, s, d.id);
      }
    }
  }

  lemma {:induction false} AddCurrencyKeepsInv(m: Machine, op: Op)
    requires Inv(m) && op.OpAddCurrency?
    ensures Inv(Step(m, op).1)
    ensures Step(m, op).0 == GroupExists ==> Step(m, op).1 == m
  {
    var coupon := FindCoupon(m.coupons, op.couponId);
    if op.supported && coupon.Some? {
      var t := coupon.value.couponType;
      var l := CouponLabel(t, CountRows(m.coupons, t), CountSettings(m.settings, op.couponId));
      assert InRange(l, m.coupons);
      PutKeepsUnique(m.groups, Group(l, PaymentOf(op.token, op.price), Some(coupon.value.supply)), op.landed);
      if Step(m, op).0 == Done {
        var s := SettingRow(l, op.couponId, op.token, op.price);
        AppendKeepsUnique(m.settings, s);
        forall d | d in m.coupons ensures CountSettings(m.settings + [s], d.id) > 0 {
          CountSettingsAppend(m.settings, s, d.id);
        }
      }
    }
  }

  lemma {:induction false} UpdatePriceKeepsInv(m: Machine, op: Op)
    requires Inv(m) && op.OpUpdatePrice? && KnownLabel(m, op)
    ensures Inv(Step(m, op).1)
  {
    assert InRange(op.groupLabel, m.coupons);
    PutKeepsUnique(m.groups, Group(op.groupLabel, PaymentOf(op.token, op.price), None), op.landed);
    if HasSetting(m.settings, op.groupLabel) {
      var priced := SetPrice(m.settings, op.groupLabel, op.price);
      forall s | s in priced ensures InRange(s.groupLabel, m.coupons) {
        var i :| 0 <= i < |priced| && priced[i] == s;
        assert m.settings[i] in m.settings;
      }
      forall c | c in m.coupons ensures CountSettings(priced, c.id) > 0 {
        SameOwnersSameCount(priced, m.settings, c.id);
      }
    }
  }

  lemma {:induction false} RunKeepsInv(m: Machine, ops: seq<Op>)
    requires Inv(m) && KnownLabels(m, ops)
    ensures Inv(Run(m, ops))
  {
    if ops != [] {
      var before, op := Run(m, ops[..|ops| - 1]), ops[|ops| - 1];
      RunKeepsInv(m, ops[..|ops| - 1]);
      match op
      case OpAddCoupon(_, _, _, _, _, _) => AddCouponKeepsInv(before, op);
      case OpAddCurrency(_, _, _, _, _) => AddCurrencyKeepsInv(before, op);
      case OpUpdatePrice(_, _, _, _) => UpdatePriceKeepsInv(before, op);
    }
  }

  // ---------- creation establishes it ----------

  ghost predicate AllLabelled(coupons: seq<CouponInput>, cs: seq<LabelledCoupon>) {
    |cs| == |coupons| && forall c :: 0 <= c < |coupons| ==> IsLabelled(coupons, c, cs[c])
  }

  lemma {:induction false} LabelledTail(coupons: seq<CouponInput>, cs: seq<LabelledCoupon>)
    requires AllLabelled(coupons, cs) && cs != []
    ensures AllLabelled(coupons[1..], cs[1..])
  {
    forall c | 0 <= c < |coupons[1..]| ensures IsLabelled(coupons[1..], c, cs[1..][c]) {
      assert IsLabelled(coupons, c + 1, cs[c + 1]);
      assert coupons[1..][c + 1..] == coupons[c + 2..];
    }
  }

  lemma {:induction false} CouponSettingAt(settings: seq<LabelledSetting>, id: nat, k: nat)
    requires k < |CouponSettings(settings, id)|
    ensures |CouponSettings(settings, id)| == |settings|
    ensures CouponSettings(settings, id)[k]
            == SettingRow(settings[k].groupLabel, id, settings[k].splTokenAddress, settings[k].mintPrice)
  {
    if k > 0 {
      CouponSettingAt(settings[1..], id, k - 1);
    } else if |settings| > 1 {
      CouponSettingAt(settings[1..], id, 0);
    }
  }

  /** The labels of one coupon's rows. */
  lemma {:induction false} HeadLabels(coupons: seq<CouponInput>, cs: seq<LabelledCoupon>, id: nat, k: nat)
    requires AllLabelled(coupons, cs) && cs != [] && k < |CouponSettings(cs[0].currencySettings, id)|
    ensures |CouponSettings(cs[0].currencySettings, id)| == |coupons[0].currencySettings|
    ensures var t := coupons[0].couponType;
            CouponSettings(cs[0].currencySettings, id)[k].groupLabel
            == CouponLabel(t, CouponLabels.CountType(coupons[1..], t), |coupons[0].currencySettings| - 1 - k)
  {
    CouponSettingAt(cs[0].currencySettings, id, k);
    assert IsLabelled(coupons, 0, cs[0]);
  }

  lemma {:induction false} CreatedLabels(coupons: seq<CouponInput>, cs: seq<LabelledCoupon>, id: nat)
    requires AllLabelled(coupons, cs)
    ensures UniqueSettings(AllSettings(cs, id))
    ensures forall s :: s in AllSettings(cs, id) ==>
              && s.groupLabel.CouponLabel?
              && s.groupLabel.couponTypeIteration < CouponLabels.CountType(coupons, s.groupLabel.couponType)
    decreases |cs|
  {
    if cs != [] {
      LabelledTail(coupons, cs);
      CreatedLabels(coupons[1..], cs[1..], id + 1);
      var head, rest := CouponSettings(cs[0].currencySettings, id), AllSettings(cs[1..], id + 1);
      forall k | 0 <= k < |head|
        ensures var t := coupons[0].couponType;
                head[k].groupLabel == CouponLabel(t, CouponLabels.CountType(coupons[1..], t), |head| - 1 - k)
      {
        HeadLabels(coupons, cs, id, k);
      }
      forall k | 0 <= k < |rest| ensures rest[k] in rest {
      }
    }
  }

  /** Groups and rows are made from the same list: position by position they agree. */
  lemma {:induction false} CouponPairs(settings: seq<LabelledSetting>, supply: nat, id: nat)
    ensures var gs, ss := CouponGroups(settings, supply), CouponSettings(settings, id);
            |gs| == |ss| && forall i :: 0 <= i < |gs| ==>
              gs[i].groupLabel == ss[i].groupLabel && gs[i].payment == PaymentOf(ss[i].splTokenAddress, ss[i].mintPrice)
  {
    if settings != [] {
      CouponPairs(settings[1..], supply, id);
    }
  }

  lemma {:induction false} AllPairs(cs: seq<LabelledCoupon>, id: nat)
    ensures var gs, ss := AllGroups(cs), AllSettings(cs, id);
            |gs| == |ss| && forall i :: 0 <= i < |gs| ==>
              gs[i].groupLabel == ss[i].groupLabel && gs[i].payment == PaymentOf(ss[i].splTokenAddress, ss[i].mintPrice)
    decreases |cs|
  {
    if cs != [] {
      CouponPairs(cs[0].currencySettings, cs[0].supply, id);
      AllPairs(cs[1..], id + 1);
    }
  }

  lemma {:induction false} CountRowsConcat(a: seq<CouponRow>, b: seq<CouponRow>, t: CouponType)
    ensures CountRows(a + b, t) == CountRows(a, t) + CountRows(b, t)
  {
    if b == [] {
      assert a + b == a;
    } else {
      CountRowsConcat(a, b[..|b| - 1], t);
      assert (a + b)[..|a + b| - 1] == a + b[..|b| - 1];
    }
  }

  lemma {:induction false} CreatedCounts(coupons: seq<CouponInput>, cs: seq<LabelledCoupon>, id: nat, t: CouponType)
    requires AllLabelled(coupons, cs)
    ensures CountRows(CouponRows(cs, id), t) == CouponLabels.CountType(coupons, t)
    decreases |cs|
  {
    if cs != [] {
      LabelledTail(coupons, cs);
      CreatedCounts(coupons[1..], cs[1..], id + 1, t);
      assert IsLabelled(coupons, 0, cs[0]);
      var head := CouponRow(id, cs[0].couponType, cs[0].supply);
      CountRowsConcat([head], CouponRows(cs[1..], id + 1), t);
      CountRowsAppend([], head, t);
      assert [] + [head] == [head];
    }
  }

  lemma {:induction false} CountSettingsConcat(a: seq<SettingRow>, b: seq<SettingRow>, id: nat)
    ensures CountSettings(a + b, id) == CountSettings(a, id) + CountSettings(b, id)
  {
    if b == [] {
      assert a + b == a;
    } else {
      CountSettingsConcat(a, b[..|b| - 1], id);
      assert (a + b)[..|a + b| - 1] == a + b[..|b| - 1];
    }
  }

  lemma {:induction false} CountOwn(settings: seq<LabelledSetting>, owner: nat, id: nat)
    ensures CountSettings(CouponSettings(settings, owner), id) == if owner == id then |settings| else 0
  {
    if settings != [] {
      var head := [SettingRow(settings[0].groupLabel, owner, settings[0].splTokenAddress, settings[0].mintPrice)];
      CountOwn(settings[1..], owner, id);
      CountSettingsConcat(head, CouponSettings(settings[1..], owner), id);
      assert head[..0] == [];
    }
  }

  /** Coupon number `k` of the request owns as many rows as it has settings. */
  lemma {:induction false} CreatedOwners(cs: seq<LabelledCoupon>, id: nat, k: nat)
    ensures CountSettings(AllSettings(cs, id), k) == if id <= k < id + |cs| then |cs[k - id].currencySettings| else 0
    decreases |cs|
  {
    if cs != [] {
      CountOwn(cs[0].currencySettings, id, k);
      CreatedOwners(cs[1..], id + 1, k);
      CountSettingsConcat(CouponSettings(cs[0].currencySettings, id), AllSettings(cs[1..], id + 1), k);
      assert AllSettings(cs, id) == CouponSettings(cs[0].currencySettings, id) + AllSettings(cs[1..], id + 1);
    }
  }

  lemma {:induction false} CouponRowAt(cs: seq<LabelledCoupon>, id: nat, k: nat)
    requires k < |cs|
    ensures |CouponRows(cs, id)| == |cs| && CouponRows(cs, id)[k] == CouponRow(id + k, cs[k].couponType, cs[k].supply)
    decreases |cs|
  {
    if k > 0 {
      CouponRowAt(cs[1..], id + 1, k - 1);
    } else if |cs| > 1 {
      CouponRowAt(cs[1..], id + 1, 0);
    }
  }

  ghost predicate EveryCouponPriced(coupons: seq<CouponInput>) {
    forall c :: 0 <= c < |coupons| ==> coupons[c].currencySettings != []
  }

  /** Creation gives unique labels, all in range, on both sides. */
  lemma {:induction false} CreatedInRange(coupons: seq<CouponInput>, cs: seq<LabelledCoupon>)
    requires AllLabelled(coupons, cs)
    ensures var m := CreatedMachine(cs); LabelsInRange(m) && UniqueSettings(m.settings) && UniqueGroups(m.groups)
  {
    var m := CreatedMachine(cs);
    CreatedLabels(coupons, cs, 0);
    AllPairs(cs, 0);
    var ss, gs := AllSettings(cs, 0), AllGroups(cs);
    forall t ensures CountRows(m.coupons, t) >= CouponLabels.CountType(coupons, t) {
      CreatedCounts(coupons, cs, 0, t);
      CountRowsAppend(CouponRows(cs, 0), CouponRow(|cs|, WhitelistedWallet, 0), t);
    }
    forall i | 0 <= i < |gs|
      ensures gs[i].groupLabel.CouponLabel? && gs[i].groupLabel == ss[i].groupLabel
              && InRange(ss[i].groupLabel, m.coupons)
    {
      assert ss[i] in ss;
    }
    InRangeFromPairs(m, ss, gs);
  }

  /** From the two paired lists of creation to the machine's rows and groups. */
  lemma {:induction false} InRangeFromPairs(m: Machine, ss: seq<SettingRow>, gs: seq<Group>)
    requires |ss| == |gs| && UniqueSettings(ss)
    requires forall i :: 0 <= i < |gs| ==>
               gs[i].groupLabel.CouponLabel? && gs[i].groupLabel == ss[i].groupLabel
                 && InRange(ss[i].groupLabel, m.coupons)
    requires m.groups == [AUTHORITY_GROUP] + gs
    requires |m.settings| == |ss| + 1 && m.settings[..|ss|] == ss && m.settings[|ss|].groupLabel == AuthorityLabel
    ensures LabelsInRange(m) && UniqueSettings(m.settings) && UniqueGroups(m.groups)
  {
    forall i, j | 0 <= i < j < |m.settings| ensures m.settings[i].groupLabel != m.settings[j].groupLabel {
      assert m.settings[i] == ss[i];
      assert j < |ss| ==> m.settings[j] == ss[j];
    }
  }

  lemma {:induction false} CreatedInv(coupons: seq<CouponInput>, cs: seq<LabelledCoupon>)
    requires AllLabelled(coupons, cs) && EveryCouponPriced(coupons)
    ensures Inv(CreatedMachine(cs))
  {
    var m := CreatedMachine(cs);
    CreatedInRange(coupons, cs);
    var vault := SettingRow(AuthorityLabel, |cs|, SOL_ADDRESS, 0);
    forall c | c in m.coupons ensures CountSettings(m.settings, c.id) > 0 {
      CountSettingsAppend(AllSettings(cs, 0), vault, c.id);
      CreatedOwners(cs, 0, c.id);
      var k :| 0 <= k < |m.coupons| && m.coupons[k] == c;
      if k < |cs| {
        CouponRowAt(cs, 0, k);
        assert IsLabelled(coupons, k, cs[k]);
      } else if cs != [] {
        CouponRowAt(cs, 0, 0);
      }
    }
  }

  // ---------- a coupon can always be added ----------

  /** From every state a run can reach, adding a coupon in a supported token goes through. */
  ghost predicate NeverRefused(m: Machine) {
    forall ops: seq<Op>, t, supply, token, price, landed :: KnownLabels(m, ops) ==>
      Step(Run(m, ops), OpAddCoupon(t, supply, token, price, true, landed)).0 == Done
  }

  /** The first currency of a coupon without settings takes the label of the next coupon of its type. */
  lemma {:induction false} FirstCurrencyTakesLabel(m: Machine, k: nat, coupon: CouponRow)
    requires FindCoupon(m.coupons, k) == Some(coupon) && CountSettings(m.settings, k) == 0
    ensures var m' := Step(m, OpAddCurrency(k, SOL_ADDRESS, 0, true, true)).1;
            && m'.coupons == m.coupons
            && HasGroup(m'.groups, CouponLabel(coupon.couponType, CountRows(m.coupons, coupon.couponType), 0))
  {
    var l := CouponLabel(coupon.couponType, CountRows(m.coupons, coupon.couponType), 0);
    if !HasGroup(m.groups, l) {
      assert Group(l, SolPayment(0), Some(coupon.supply)) in PutGroup(m.groups,
               Group(l, SolPayment(0), Some(coupon.supply)), true);
    }
  }

  lemma {:induction false} UnpricedCouponBlocks(coupons: seq<CouponInput>, cs: seq<LabelledCoupon>, k: nat)
    requires AllLabelled(coupons, cs) && k < |coupons| && coupons[k].currencySettings == []
    ensures !NeverRefused(CreatedMachine(cs))
  {
    var m := CreatedMachine(cs);
    var t := coupons[k].couponType;
    var op := OpAddCurrency(k, SOL_ADDRESS, 0, true, true);
    assert IsLabelled(coupons, k, cs[k]);
    IdsDistinct(cs, k);
    CountSettingsAppend(AllSettings(cs, 0), SettingRow(AuthorityLabel, |cs|, SOL_ADDRESS, 0), k);
    CreatedOwners(cs, 0, k);
    FirstCurrencyTakesLabel(m, k, CouponRow(k, t, cs[k].supply));
    BlockedAfter(m, op, t);
  }

  lemma {:induction false} BlockedAfter(m: Machine, op: Op, t: CouponType)
    requires KnownLabel(m, op)
    requires var m' := Step(m, op).1; HasGroup(m'.groups, CouponLabel(t, CountRows(m'.coupons, t), 0))
    ensures !NeverRefused(m)
  {
    assert [op][..0] == [];
    assert KnownLabels(m, []) && KnownLabels(m, [op]);
    assert Step(Run(m, [op]), OpAddCoupon(t, 0, SOL_ADDRESS, 0, true, true)).0 == GroupExists;
  }

  lemma {:induction false} IdsDistinct(cs: seq<LabelledCoupon>, k: nat)
    requires k < |cs|
    ensures FindCoupon(CreatedMachine(cs).coupons, k) == Some(CouponRow(k, cs[k].couponType, cs[k].supply))
  {
    var rows := CreatedMachine(cs).coupons;
    CouponRowAt(cs, 0, k);
    assert rows[k] in rows;
    var found := FindCoupon(rows, k);
    var i :| 0 <= i < |rows| && rows[i] == found.value;
    if i < |cs| {
      CouponRowAt(cs, 0, i);
    }
  }

  /** For a request creation accepts: adding a coupon is never refused, in any run of coupons, currencies and
      price updates, exactly when the request prices every coupon. An unpriced coupon lets a first currency
      take the label of the next coupon of its type. */
  lemma {:induction false} NeverRefusedExactly(coupons: seq<CouponInput>, cs: seq<LabelledCoupon>)
    requires AllLabelled(coupons, cs)
    ensures NeverRefused(CreatedMachine(cs)) <==> EveryCouponPriced(coupons)
  {
    var m := CreatedMachine(cs);
    if EveryCouponPriced(coupons) {
      CreatedInv(coupons, cs);
      forall ops: seq<Op>, t, supply, token, price, landed | KnownLabels(m, ops)
        ensures Step(Run(m, ops), OpAddCoupon(t, supply, token, price, true, landed)).0 == Done
      {
        RunKeepsInv(m, ops);
        AddCouponKeepsInv(Run(m, ops), OpAddCoupon(t, supply, token, price, true, landed));
      }
    } else {
      var k :| 0 <= k < |coupons| && coupons[k].currencySettings == [];
      UnpricedCouponBlocks(coupons, cs, k);
    }
  }

  // ---------- the chain agrees with the database ----------

  ghost function GroupPairs(groups: seq<Group>): set<(Label, Payment)> {
    set g | g in groups :: (g.groupLabel, g.payment)
  }

  ghost function RowPairs(settings: seq<SettingRow>): set<(Label, Payment)> {
    set s | s in settings :: (s.groupLabel, PaymentOf(s.splTokenAddress, s.mintPrice))
  }

  /** One group for each row and one row for each group, with the same label, payment kind and price. */
  ghost predicate Agree(m: Machine) {
    UniqueSettings(m.settings) && UniqueGroups(m.groups) && GroupPairs(m.groups) == RowPairs(m.settings)
  }

  ghost function Without(pairs: set<(Label, Payment)>, l: Label): set<(Label, Payment)> {
    set p | p in pairs && p.0 != l
  }

  lemma {:induction false} PutPairs(groups: seq<Group>, g: Group)
    ensures GroupPairs(PutGroup(groups, g, true))
            == Without(GroupPairs(groups), g.groupLabel) + {(g.groupLabel, g.payment)}
  {
    var after := PutGroup(groups, g, true);
    forall h | h in groups && h.groupLabel != g.groupLabel ensures h in after {
      assert h in RemoveGroup(groups, g.groupLabel);
    }
    assert g in after;
  }

  lemma {:induction false} AppendPairs(settings: seq<SettingRow>, s: SettingRow)
    ensures RowPairs(settings + [s]) == RowPairs(settings) + {(s.groupLabel, PaymentOf(s.splTokenAddress, s.mintPrice))}
  {
    assert s in settings + [s];
    forall h | h in settings ensures h in settings + [s] {
    }
  }

  /** Repricing touches the named row only. */
  lemma {:induction false} SetPriceAt(settings: seq<SettingRow>, k: nat, price: nat)
    requires UniqueSettings(settings) && k < |settings|
    ensures SetPrice(settings, settings[k].groupLabel, price) == settings[k := settings[k].(mintPrice := price)]
  {
    forall i | 0 <= i < |settings| && i != k ensures settings[i].groupLabel != settings[k].groupLabel {
      if i < k {
        assert settings[i].groupLabel != settings[k].groupLabel;
      }
    }
  }

  lemma {:induction false} UpdatePairs(settings: seq<SettingRow>, k: nat, s: SettingRow)
    requires UniqueSettings(settings) && k < |settings| && s.groupLabel == settings[k].groupLabel
    ensures UniqueSettings(settings[k := s])
    ensures RowPairs(settings[k := s])
            == Without(RowPairs(settings), s.groupLabel) + {(s.groupLabel, PaymentOf(s.splTokenAddress, s.mintPrice))}
  {
    var after := settings[k := s];
    assert after[k] in after;
    forall i | 0 <= i < |settings| && i != k ensures settings[i] in after && settings[i].groupLabel != s.groupLabel {
      assert after[i] in after;
      if i < k {
        assert settings[i].groupLabel != settings[k].groupLabel;
      }
    }
    forall h | h in after ensures h == s || (h in settings && h.groupLabel != s.groupLabel) {
      var i :| 0 <= i < |after| && after[i] == h;
    }
  }

  /** The row the price tool names, when there is one. */
  lemma {:induction false} SetPricePairs(settings: seq<SettingRow>, row: SettingRow, price: nat)
    requires UniqueSettings(settings) && row in settings
    ensures UniqueSettings(SetPrice(settings, row.groupLabel, price))
    ensures RowPairs(SetPrice(settings, row.groupLabel, price))
         == Without(RowPairs(settings), row.groupLabel) + {(row.groupLabel, PaymentOf(row.splTokenAddress, price))}
  {
    var k :| 0 <= k < |settings| && settings[k] == row;
    SetPriceAt(settings, k, price);
    UpdatePairs(settings, k, row.(mintPrice := price));
  }

  lemma {:induction false} LabelsAgree(m: Machine, l: Label)
    requires Agree(m)
    ensures HasGroup(m.groups, l) <==> HasSetting(m.settings, l)
  {
    if HasGroup(m.groups, l) {
      var g :| g in m.groups && g.groupLabel == l;
      assert (l, g.payment) in RowPairs(m.settings);
    }
    if HasSetting(m.settings, l) {
      var s :| s in m.settings && s.groupLabel == l;
      assert (l, PaymentOf(s.splTokenAddress, s.mintPrice)) in GroupPairs(m.groups);
    }
  }

  lemma {:induction false} FreshLabel(m: Machine, l: Label)
    requires Agree(m) && !HasGroup(m.groups, l)
    ensures !HasSetting(m.settings, l)
    ensures forall pay :: (l, pay) !in GroupPairs(m.groups) && (l, pay) !in RowPairs(m.settings)
    ensures Without(GroupPairs(m.groups), l) == GroupPairs(m.groups)
  {
    LabelsAgree(m, l);
    forall p | p in GroupPairs(m.groups) ensures p.0 != l {
      var g :| g in m.groups && p == (g.groupLabel, g.payment);
    }
  }

  /** A new coupon keeps the agreement exactly when its update lands, or when nothing was attempted. */
  lemma {:induction false} AddCouponAgrees(m: Machine, op: Op)
    requires Inv(m) && Agree(m) && op.OpAddCoupon?
    ensures Agree(Step(m, op).1) <==> !op.supported || op.landed
  {
    AddCouponKeepsInv(m, op);
    if op.supported {
      var t := op.couponType;
      var l := CouponLabel(t, CountRows(m.coupons, t), 0);
      var s := SettingRow(l, m.nextId, op.token, op.price);
      FreshLabel(m, l);
      PutPairs(m.groups, Group(l, PaymentOf(op.token, op.price), Some(op.supply)));
      AppendPairs(m.settings, s);
      assert (l, PaymentOf(op.token, op.price)) in RowPairs(m.settings + [s]);
    }
  }

  /** A new currency keeps it exactly when it is refused up front, or the update lands and the coupon has no
      price in that token yet: with a token it has, the group is on chain before the row is rejected. */
  lemma {:induction false} AddCurrencyAgrees(m: Machine, op: Op)
    requires Inv(m) && Agree(m) && op.OpAddCurrency?
    ensures Step(m, op).0 in {TokenNotSupported, CouponNotFound, GroupExists} ==> Step(m, op).1 == m
    ensures Step(m, op).0 !in {TokenNotSupported, CouponNotFound, GroupExists} ==>
              (Agree(Step(m, op).1) <==> (op.landed <==> !TokenTaken(m.settings, op.couponId, op.token)))
  {
    AddCurrencyKeepsInv(m, op);
    if Step(m, op).0 !in {TokenNotSupported, CouponNotFound, GroupExists} {
      var coupon := FindCoupon(m.coupons, op.couponId).value;
      var l := CouponLabel(coupon.couponType, CountRows(m.coupons, coupon.couponType),
                 CountSettings(m.settings, op.couponId));
      var s := SettingRow(l, op.couponId, op.token, op.price);
      FreshLabel(m, l);
      PutPairs(m.groups, Group(l, PaymentOf(op.token, op.price), Some(coupon.supply)));
      AppendPairs(m.settings, s);
      assert (l, PaymentOf(op.token, op.price)) in RowPairs(m.settings + [s]);
    }
  }

  lemma {:induction false} SamePair(rest: set<(Label, Payment)>, l: Label, token: string, rowToken: string, price: nat)
    requires forall p :: p in rest ==> p.0 != l
    ensures rest + {(l, PaymentOf(token, price))} == rest + {(l, PaymentOf(rowToken, price))} <==> token == rowToken
  {
    if rest + {(l, PaymentOf(token, price))} == rest + {(l, PaymentOf(rowToken, price))} {
      assert (l, PaymentOf(token, price)) in rest + {(l, PaymentOf(rowToken, price))};
    }
  }

  lemma {:induction false} OneRowALabel(settings: seq<SettingRow>, row: SettingRow)
    requires UniqueSettings(settings) && row in settings
    ensures forall s :: s in settings && s.groupLabel == row.groupLabel ==> s == row
  {
    forall s | s in settings && s.groupLabel == row.groupLabel ensures s == row {
      var i :| 0 <= i < |settings| && settings[i] == s;
      var k :| 0 <= k < |settings| && settings[k] == row;
    }
  }

  lemma {:induction false} LandedPriceAgrees(m: Machine, op: Op)
    requires Agree(m) && op.OpUpdatePrice? && op.landed
    ensures Agree(Step(m, op).1) <==> NamesOwnToken(m, op)
  {
    var l := op.groupLabel;
    var g := Group(l, PaymentOf(op.token, op.price), None);
    var m' := Step(m, op).1;
    PutPairs(m.groups, g);
    PutKeepsUnique(m.groups, g, true);
    assert (l, g.payment) in GroupPairs(m'.groups);
    if HasSetting(m.settings, l) {
      var row :| row in m.settings && row.groupLabel == l;
      SetPricePairs(m.settings, row, op.price);
      SamePair(Without(RowPairs(m.settings), l), l, op.token, row.splTokenAddress, op.price);
      OneRowALabel(m.settings, row);
    } else {
      assert (l, g.payment) !in RowPairs(m.settings);
    }
  }

  lemma {:induction false} LostPriceAgrees(m: Machine, op: Op)
    requires Agree(m) && op.OpUpdatePrice? && !op.landed
    ensures Agree(Step(m, op).1) <==> RepeatsPrice(m, op)
  {
    var l := op.groupLabel;
    if HasSetting(m.settings, l) {
      var row :| row in m.settings && row.groupLabel == l;
      RowsAroundLabel(m.settings, row);
      SetPricePairs(m.settings, row, op.price);
      OneRowALabel(m.settings, row);
      SamePrice(Without(RowPairs(m.settings), l), l, row.splTokenAddress, row.mintPrice, op.price);
    }
  }

  lemma {:induction false} RowsAroundLabel(settings: seq<SettingRow>, row: SettingRow)
    requires UniqueSettings(settings) && row in settings
    ensures RowPairs(settings)
         == Without(RowPairs(settings), row.groupLabel)
            + {(row.groupLabel, PaymentOf(row.splTokenAddress, row.mintPrice))}
  {
    var k :| 0 <= k < |settings| && settings[k] == row;
    SetPricePairs(settings, row, row.mintPrice);
    SetPriceAt(settings, k, row.mintPrice);
    assert settings[k := row] == settings;
  }

  lemma {:induction false} SamePrice(rest: set<(Label, Payment)>, l: Label, token: string, a: nat, b: nat)
    requires forall p :: p in rest ==> p.0 != l
    ensures rest + {(l, PaymentOf(token, a))} == rest + {(l, PaymentOf(token, b))} <==> a == b
  {
    if rest + {(l, PaymentOf(token, a))} == rest + {(l, PaymentOf(token, b))} {
      assert (l, PaymentOf(token, a)) in rest + {(l, PaymentOf(token, b))};
    }
  }

  /** The label has a row, and the tool is given that row's token. */
  ghost predicate NamesOwnToken(m: Machine, op: Op)
    requires op.OpUpdatePrice?
  {
    exists s :: s in m.settings && s.groupLabel == op.groupLabel && s.splTokenAddress == op.token
  }

  /** The label has no row, or the row has that price already. */
  ghost predicate RepeatsPrice(m: Machine, op: Op)
    requires op.OpUpdatePrice?
  {
    forall s :: s in m.settings && s.groupLabel == op.groupLabel ==> s.mintPrice == op.price
  }

  /** A price update that lands keeps it exactly when the tool names the row's own token; one that is lost still
      reprices the row, and keeps it exactly when there is no row or nothing new in the price. */
  lemma {:induction false} UpdatePriceAgrees(m: Machine, op: Op)
    requires Agree(m) && op.OpUpdatePrice?
    ensures Agree(Step(m, op).1) <==> if op.landed then NamesOwnToken(m, op) else RepeatsPrice(m, op)
  {
    if op.landed {
      LandedPriceAgrees(m, op);
    } else {
      LostPriceAgrees(m, op);
    }
  }

  /** What it loses: the redemption cap of that group, and of no other. */
  lemma {:induction false} UpdatePriceDropsCap(m: Machine, op: Op)
    requires UniqueGroups(m.groups) && op.OpUpdatePrice? && op.landed
    ensures var m' := Step(m, op).1;
            && (forall g :: g in m'.groups && g.groupLabel == op.groupLabel ==> g.redeemedMaximum == None)
            && (forall g: Group :: g.groupLabel != op.groupLabel ==> (g in m'.groups <==> g in m.groups))
  {}

  /** An operation that goes as its caller means it: it lands, prices no token twice, names the row's token. */
  ghost predicate Clean(m: Machine, op: Op) {
    match op
    case OpAddCoupon(_, _, _, _, _, landed) => landed
    case OpAddCurrency(couponId, token, _, _, landed) => landed && !TokenTaken(m.settings, couponId, token)
    case OpUpdatePrice(_, _, _, landed) => landed && NamesOwnToken(m, op)
  }

  ghost predicate CleanRun(m: Machine, ops: seq<Op>) {
    ops == [] || (CleanRun(m, ops[..|ops| - 1]) && Clean(Run(m, ops[..|ops| - 1]), ops[|ops| - 1]))
  }

  lemma {:induction false} CreatedAgrees(coupons: seq<CouponInput>, cs: seq<LabelledCoupon>)
    requires AllLabelled(coupons, cs)
    ensures Agree(CreatedMachine(cs))
  {
    CreatedInRange(coupons, cs);
    AllPairs(cs, 0);
    var m := CreatedMachine(cs);
    var ss, gs := AllSettings(cs, 0), AllGroups(cs);
    var vault := SettingRow(AuthorityLabel, |cs|, SOL_ADDRESS, 0);
    AppendPairs(ss, vault);
    forall p ensures p in GroupPairs(gs) <==> p in RowPairs(ss) {
      if p in GroupPairs(gs) {
        var g :| g in gs && p == (g.groupLabel, g.payment);
        var i :| 0 <= i < |gs| && gs[i] == g;
        assert ss[i] in ss;
      }
      if p in RowPairs(ss) {
        var s :| s in ss && p == (s.groupLabel, PaymentOf(s.splTokenAddress, s.mintPrice));
        var i :| 0 <= i < |ss| && ss[i] == s;
        assert gs[i] in gs;
      }
    }
    assert GroupPairs(m.groups) == {(AuthorityLabel, SolPayment(0))} + GroupPairs(gs) by {
      assert AUTHORITY_GROUP in m.groups;
      forall g | g in gs ensures g in m.groups {
      }
    }
  }

  /** Agreement over every clean run from creation. */
  lemma {:induction false} RunAgrees(coupons: seq<CouponInput>, cs: seq<LabelledCoupon>, ops: seq<Op>)
    requires AllLabelled(coupons, cs) && EveryCouponPriced(coupons) && CleanRun(CreatedMachine(cs), ops)
    ensures Inv(Run(CreatedMachine(cs), ops)) && Agree(Run(CreatedMachine(cs), ops))
  {
    if ops == [] {
      CreatedInv(coupons, cs);
      CreatedAgrees(coupons, cs);
    } else {
      var m := Run(CreatedMachine(cs), ops[..|ops| - 1]);
      var op := ops[|ops| - 1];
      RunAgrees(coupons, cs, ops[..|ops| - 1]);
      match op
      case OpAddCoupon(_, _, _, _, _, _) => AddCouponKeepsInv(m, op); AddCouponAgrees(m, op);
      case OpAddCurrency(_, _, _, _, _) => AddCurrencyKeepsInv(m, op); AddCurrencyAgrees(m, op);
      case OpUpdatePrice(_, _, _, _) => UpdatePriceKeepsInv(m, op); UpdatePriceAgrees(m, op);
    }
  }

  /** The second price in one token: the row is rejected after its group went on chain. */
  lemma {:induction false} SameTokenOrphansGroup(couponId: nat, token: string)
    ensures var l := CouponLabel(PublicUser, 0, 0);
            var c, s := CouponRow(couponId, PublicUser, 1), SettingRow(l, couponId, token, 1);
            var g := Group(l, PaymentOf(token, 1), Some(1));
            var m := Machine([c], [s], couponId + 1, [g]);
            Inv(m) && Agree(m) && Step(m, OpAddCurrency(couponId, token, 2, true, true)).0 == RowConflict
            && !Agree(Step(m, OpAddCurrency(couponId, token, 2, true, true)).1)
  {
    var l := CouponLabel(PublicUser, 0, 0);
    var c, s, g := CouponRow(couponId, PublicUser, 1), SettingRow(l, couponId, token, 1),
                     Group(l, PaymentOf(token, 1), Some(1));
    var m := Machine([c], [s], couponId + 1, [g]);
    CountRowsAppend([], c, PublicUser);
    CountSettingsAppend([], s, couponId);
    assert [] + [c] == [c] && [] + [s] == [s];
    assert s in m.settings && g in m.groups;
    assert TokenTaken(m.settings, couponId, token);
    AddCurrencyAgrees(m, OpAddCurrency(couponId, token, 2, true, true));
  }

  // ---------- when a currency is refused ----------

  /** The operation, in this state, puts a group under the label: a currency whose label it is, or the price
      tool pointed at it. */
  ghost predicate Takes(m: Machine, op: Op, l: Label) {
    match op
    case OpAddCoupon(_, _, _, _, _, _) => false
    case OpAddCurrency(couponId, _, _, supported, landed) =>
      supported && landed && CurrencyLabel(m, couponId) == Some(l)
    case OpUpdatePrice(groupLabel, _, _, landed) => landed && groupLabel == l
  }

  /** The label the next currency of a coupon would get. */
  function CurrencyLabel(m: Machine, couponId: nat): Option<Label> {
    var coupon := FindCoupon(m.coupons, couponId);
    if coupon.None? then None
    else Some(CouponLabel(coupon.value.couponType, CountRows(m.coupons, coupon.value.couponType),
           CountSettings(m.settings, couponId)))
  }

  ghost predicate TakenIn(m: Machine, ops: seq<Op>, l: Label) {
    exists k :: 0 <= k < |ops| && TakesAt(m, ops, k, l)
  }

  ghost predicate TakesAt(m: Machine, ops: seq<Op>, k: nat, l: Label)
    requires k < |ops|
  {
    Takes(Run(m, ops[..k]), ops[k], l)
  }

  lemma {:induction false} TakenStep(m: Machine, ops: seq<Op>, l: Label)
    requires ops != []
    ensures var n := |ops| - 1;
            TakenIn(m, ops, l) <==> TakenIn(m, ops[..n], l) || Takes(Run(m, ops[..n]), ops[n], l)
  {
    var n := |ops| - 1;
    forall k: nat | k < n ensures TakesAt(m, ops, k, l) <==> TakesAt(m, ops[..n], k, l) {
      assert ops[..n][..k] == ops[..k];
    }
    assert TakesAt(m, ops, n, l) <==> Takes(Run(m, ops[..n]), ops[n], l);
  }

  /** One step: a label of a currency (its last number positive) appears only when it is taken. */
  lemma {:induction false} StepTakes(m: Machine, op: Op, l: Label)
    requires l.CouponLabel? && l.currencyCouponIteration >= 1
    ensures HasGroup(Step(m, op).1.groups, l) <==> HasGroup(m.groups, l) || Takes(m, op, l)
  {
    match op
    case OpAddCoupon(t, supply, token, price, supported, landed) =>
      PutGroupHas(m.groups, Group(CouponLabel(t, CountRows(m.coupons, t), 0), PaymentOf(token, price), Some(supply)),
        landed, l);
    case OpAddCurrency(couponId, token, price, supported, landed) =>
      var coupon := FindCoupon(m.coupons, couponId);
      if coupon.Some? {
        PutGroupHas(m.groups,
          Group(CurrencyLabel(m, couponId).value, PaymentOf(token, price), Some(coupon.value.supply)), landed, l);
      }
    case OpUpdatePrice(groupLabel, token, price, landed) =>
      PutGroupHas(m.groups, Group(groupLabel, PaymentOf(token, price), None), landed, l);
  }

  lemma {:induction false} PutGroupHas(groups: seq<Group>, g: Group, landed: bool, l: Label)
    ensures HasGroup(PutGroup(groups, g, landed), l) <==> HasGroup(groups, l) || (landed && g.groupLabel == l)
  {
    var after := PutGroup(groups, g, landed);
    if landed {
      assert g in after;
      forall h | h in groups && h.groupLabel != g.groupLabel ensures h in after {
        assert h in RemoveGroup(groups, g.groupLabel);
      }
    }
  }

  /** No group of creation has an iteration that the next currency of its type could get. */
  lemma {:induction false} CreatedBelowCount(coupons: seq<CouponInput>, cs: seq<LabelledCoupon>, t: CouponType,
          i: nat, j: nat)
    requires AllLabelled(coupons, cs) && i >= CountRows(CreatedMachine(cs).coupons, t)
    ensures !HasGroup(CreatedMachine(cs).groups, CouponLabel(t, i, j))
  {
    var ss, gs := AllSettings(cs, 0), AllGroups(cs);
    CreatedLabels(coupons, cs, 0);
    AllPairs(cs, 0);
    CreatedCounts(coupons, cs, 0, t);
    CountRowsAppend(CouponRows(cs, 0), CouponRow(|cs|, WhitelistedWallet, 0), t);
    forall g | g in gs ensures g.groupLabel != CouponLabel(t, i, j) {
      var k :| 0 <= k < |gs| && gs[k] == g;
      assert ss[k] in ss;
    }
  }

  lemma {:induction false} CountsGrow(m: Machine, op: Op, t: CouponType)
    ensures CountRows(m.coupons, t) <= CountRows(Step(m, op).1.coupons, t)
  {
    if op.OpAddCoupon? {
      CountRowsAppend(m.coupons, CouponRow(m.nextId, op.couponType, op.supply), t);
    }
  }

  lemma {:induction false} GroupIsTaken(coupons: seq<CouponInput>, cs: seq<LabelledCoupon>, ops: seq<Op>,
          t: CouponType, i: nat, j: nat)
    requires AllLabelled(coupons, cs) && j >= 1 && i >= CountRows(Run(CreatedMachine(cs), ops).coupons, t)
    ensures HasGroup(Run(CreatedMachine(cs), ops).groups, CouponLabel(t, i, j))
            <==> TakenIn(CreatedMachine(cs), ops, CouponLabel(t, i, j))
  {
    var m, l := CreatedMachine(cs), CouponLabel(t, i, j);
    if ops == [] {
      CreatedBelowCount(coupons, cs, t, i, j);
    } else {
      var before, op := ops[..|ops| - 1], ops[|ops| - 1];
      CountsGrow(Run(m, before), op, t);
      GroupIsTaken(coupons, cs, before, t, i, j);
      StepTakes(Run(m, before), op, l);
      TakenStep(m, ops, l);
    }
  }

  /** In any run from creation: a further currency for a coupon is refused exactly when an earlier operation has
      put a group under its label already. The label counts the coupons of the type, so that is a currency of any
      coupon of the type with as many settings, added since the last coupon of the type, or a price update. */
  lemma {:induction false} AddCurrencyRefusedExactly(coupons: seq<CouponInput>, cs: seq<LabelledCoupon>, ops: seq<Op>,
          op: Op, start: Machine, m: Machine, l: Label)
    requires AllLabelled(coupons, cs) && op.OpAddCurrency? && op.supported
    requires start == CreatedMachine(cs) && m == Run(start, ops)
    requires CurrencyLabel(m, op.couponId) == Some(l) && l.currencyCouponIteration >= 1
    ensures Step(m, op).0 == GroupExists <==> TakenIn(start, ops, l)
  {
    GroupIsTaken(coupons, cs, ops, l.couponType, l.couponTypeIteration, l.currencyCouponIteration);
  }

  /** Two coupons of one type with equally many settings: once one of them got a currency, the other gets none. */
  lemma {:induction false} SecondCurrencyRefused(m: Machine, op: Op, after: Machine, l: Label, second: nat,
          token: string, price: nat, landed: bool)
    requires op.OpAddCurrency? && op.couponId != second && op.landed && Step(m, op) == (Done, after)
    requires CurrencyLabel(m, second) == Some(l) == CurrencyLabel(m, op.couponId)
    ensures Step(after, OpAddCurrency(second, token, price, true, landed)).0 == GroupExists
  {
    var row := SettingRow(l, op.couponId, op.token, op.price);
    CountSettingsAppend(m.settings, row, second);
    PutGroupHas(m.groups,
      Group(l, PaymentOf(op.token, op.price), Some(FindCoupon(m.coupons, op.couponId).value.supply)), true, l);
  }
}

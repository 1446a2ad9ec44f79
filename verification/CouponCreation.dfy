/** What creation stores for a request: every coupon, currency setting and guard group against its input. */
module CouponCreation {
  import opened Wrappers
  import opened Constants
  import opened CouponLabels
  import opened GuardGroups
  import opened CouponRuns

  // ---------- where a setting ends up ----------

  /** Row and group `k` are made from setting `s` of coupon `c`. */
  ghost predicate MadeFrom(cs: seq<LabelledCoupon>, id: nat, c: nat, s: nat, k: nat) {
    && c < |cs| && s < |cs[c].currencySettings| && k < |AllSettings(cs, id)| && k < |AllGroups(cs)|
    && var setting := cs[c].currencySettings[s];
    && AllSettings(cs, id)[k]
       == SettingRow(setting.groupLabel, id + c, setting.splTokenAddress, setting.mintPrice)
    && AllGroups(cs)[k]
       == Group(setting.groupLabel, PaymentOf(setting.splTokenAddress, setting.mintPrice), Some(cs[c].supply))
  }

  lemma {:induction false} OwnPair(settings: seq<LabelledSetting>, supply: nat, id: nat, s: nat)
    requires s < |settings|
    ensures |CouponSettings(settings, id)| == |CouponGroups(settings, supply)| == |settings|
    ensures CouponSettings(settings, id)[s]
            == SettingRow(settings[s].groupLabel, id, settings[s].splTokenAddress, settings[s].mintPrice)
    ensures CouponGroups(settings, supply)[s]
            == Group(settings[s].groupLabel, PaymentOf(settings[s].splTokenAddress, settings[s].mintPrice),
                 Some(supply))
  {
    CouponPairs(settings, supply, id);
    CouponLength(settings, id);
    if s > 0 {
      OwnPair(settings[1..], supply, id, s - 1);
    }
  }

  lemma {:induction false} CouponLength(settings: seq<LabelledSetting>, id: nat)
    ensures |CouponSettings(settings, id)| == |settings|
  {
    if settings != [] {
      CouponLength(settings[1..], id);
    }
  }

  lemma {:induction false} NextCoupon(cs: seq<LabelledCoupon>, id: nat, c: nat, s: nat, k: nat)
    requires cs != [] && MadeFrom(cs[1..], id + 1, c, s, k)
    ensures MadeFrom(cs, id, c + 1, s, |cs[0].currencySettings| + k)
  {
    CouponPairs(cs[0].currencySettings, cs[0].supply, id);
    CouponLength(cs[0].currencySettings, id);
  }

  /** Every setting has its row and its group, at one position. */
  lemma {:induction false} PlaceOf(cs: seq<LabelledCoupon>, id: nat, c: nat, s: nat) returns (k: nat)
    requires c < |cs| && s < |cs[c].currencySettings|
    ensures MadeFrom(cs, id, c, s, k)
    decreases |cs|
  {
    if c == 0 {
      OwnPair(cs[0].currencySettings, cs[0].supply, id, s);
      k := s;
    } else {
      var rest := PlaceOf(cs[1..], id + 1, c - 1, s);
      NextCoupon(cs, id, c - 1, s, rest);
      k := |cs[0].currencySettings| + rest;
    }
  }

  /** ... and nothing else is there. */
  lemma {:induction false} OriginOf(cs: seq<LabelledCoupon>, id: nat, k: nat) returns (c: nat, s: nat)
    requires k < |AllSettings(cs, id)|
    ensures MadeFrom(cs, id, c, s, k)
    decreases |cs|
  {
    CouponLength(cs[0].currencySettings, id);
    var own := |cs[0].currencySettings|;
    if k < own {
      OwnPair(cs[0].currencySettings, cs[0].supply, id, k);
      c, s := 0, k;
    } else {
      c, s := OriginOf(cs[1..], id + 1, k - own);
      NextCoupon(cs, id, c, s, k - own);
      c := c + 1;
    }
  }

  // ---------- against the request ----------

  /** The coupons of the request after `c` that have its type. */
  ghost function LaterOfType(coupons: seq<CouponInput>, c: nat): set<nat>
    requires c < |coupons|
  {
    set i: nat | c < i < |coupons| && coupons[i].couponType == coupons[c].couponType
  }

  ghost function TypeAfter(coupons: seq<CouponInput>, c: nat, t: CouponType): set<nat> {
    set i: nat | c <= i < |coupons| && coupons[i].couponType == t
  }

  lemma {:induction false} LaterCount(coupons: seq<CouponInput>, c: nat, t: CouponType)
    requires c <= |coupons|
    ensures CouponLabels.CountType(coupons[c..], t) == |TypeAfter(coupons, c, t)|
    decreases |coupons| - c
  {
    if c == |coupons| {
      assert TypeAfter(coupons, c, t) == {};
    } else {
      LaterCount(coupons, c + 1, t);
      assert coupons[c..][1..] == coupons[c + 1..];
      OneEarlier(coupons, c, t);
    }
  }

  lemma {:induction false} OneEarlier(coupons: seq<CouponInput>, c: nat, t: CouponType)
    requires c < |coupons|
    ensures |TypeAfter(coupons, c, t)| == |TypeAfter(coupons, c + 1, t)| + if coupons[c].couponType == t then 1 else 0
  {
    var later := TypeAfter(coupons, c + 1, t);
    assert c !in later;
    assert TypeAfter(coupons, c, t) == later + if coupons[c].couponType == t then {c} else {};
  }

  /** The label of setting `s` of coupon `c`. */
  ghost function LabelFor(coupons: seq<CouponInput>, c: nat, s: nat): Label
    requires c < |coupons| && s < |coupons[c].currencySettings|
  {
    CouponLabel(coupons[c].couponType, |LaterOfType(coupons, c)|, |coupons[c].currencySettings| - 1 - s)
  }

  /** The row of setting `s` of coupon `c`: its price, and its token or SOL's where it names none. */
  ghost predicate RowFor(coupons: seq<CouponInput>, c: nat, s: nat, row: SettingRow) {
    && c < |coupons| && s < |coupons[c].currencySettings|
    && var input := coupons[c].currencySettings[s];
    && row.groupLabel == LabelFor(coupons, c, s) && row.couponId == c && row.mintPrice == input.mintPrice
    && (input.splTokenAddress.None? ==> row.splTokenAddress == SOL_ADDRESS)
    && (input.splTokenAddress.Some? ==> row.splTokenAddress == input.splTokenAddress.value)
  }

  /** Its group: it asks for that price in that token, and the coupon's supply caps it. */
  ghost predicate GroupFor(coupons: seq<CouponInput>, c: nat, s: nat, g: Group) {
    && c < |coupons| && s < |coupons[c].currencySettings|
    && var input := coupons[c].currencySettings[s];
    && g.groupLabel == LabelFor(coupons, c, s) && g.redeemedMaximum == Some(coupons[c].supply)
    && (input.splTokenAddress in {None, Some(SOL_ADDRESS)} ==> g.payment == SolPayment(input.mintPrice))
    && (input.splTokenAddress !in {None, Some(SOL_ADDRESS)} ==>
          g.payment == TokenPayment(input.mintPrice, input.splTokenAddress.value))
  }

  lemma {:induction false} MadeFor(coupons: seq<CouponInput>, cs: seq<LabelledCoupon>, c: nat, s: nat, k: nat)
    requires AllLabelled(coupons, cs) && MadeFrom(cs, 0, c, s, k)
    ensures RowFor(coupons, c, s, AllSettings(cs, 0)[k]) && GroupFor(coupons, c, s, AllGroups(cs)[k])
  {
    assert IsLabelled(coupons, c, cs[c]);
    LaterCount(coupons, c + 1, coupons[c].couponType);
    assert TypeAfter(coupons, c + 1, coupons[c].couponType) == LaterOfType(coupons, c);
  }

  lemma {:induction false} EverySettingStored(coupons: seq<CouponInput>, cs: seq<LabelledCoupon>, c: nat, s: nat)
    requires AllLabelled(coupons, cs) && c < |coupons| && s < |coupons[c].currencySettings|
    ensures var m := CreatedMachine(cs);
            HasRow(coupons, c, s, m.settings) && HasGroupFor(coupons, c, s, m.groups)
  {
    assert IsLabelled(coupons, c, cs[c]);
    var k := PlaceOf(cs, 0, c, s);
    MadeFor(coupons, cs, c, s, k);
    assert AllSettings(cs, 0)[k] in CreatedMachine(cs).settings;
    assert AllGroups(cs)[k] in CreatedMachine(cs).groups;
  }

  lemma {:induction false} StoredFromSetting(coupons: seq<CouponInput>, cs: seq<LabelledCoupon>, k: nat)
    requires AllLabelled(coupons, cs) && k < |AllSettings(cs, 0)|
    ensures |AllGroups(cs)| == |AllSettings(cs, 0)|
    ensures RowAsked(coupons, AllSettings(cs, 0)[k]) && GroupAsked(coupons, AllGroups(cs)[k])
  {
    AllPairs(cs, 0);
    var c, s := OriginOf(cs, 0, k);
    MadeFor(coupons, cs, c, s, k);
  }

  /** Creation stores each coupon with its type and supply, and the vault's after them. */
  lemma {:induction false} CreatedCoupons(coupons: seq<CouponInput>, cs: seq<LabelledCoupon>, c: nat)
    requires AllLabelled(coupons, cs) && c <= |coupons|
    ensures var rows := CreatedMachine(cs).coupons;
            |rows| == |coupons| + 1 && rows[c].id == c
            && (c < |coupons| ==> rows[c].couponType == coupons[c].couponType && rows[c].supply == coupons[c].supply)
            && (c == |coupons| ==> rows[c].couponType == WhitelistedWallet && rows[c].supply == 0)
  {
    if c < |coupons| {
      CouponRowAt(cs, 0, c);
      assert IsLabelled(coupons, c, cs[c]);
    } else if cs != [] {
      CouponRowAt(cs, 0, 0);
    }
  }

  /** A row of the machine that is the setting's. */
  ghost predicate HasRow(coupons: seq<CouponInput>, c: nat, s: nat, settings: seq<SettingRow>) {
    exists row :: row in settings && RowFor(coupons, c, s, row)
  }

  ghost predicate HasGroupFor(coupons: seq<CouponInput>, c: nat, s: nat, groups: seq<Group>) {
    exists g :: g in groups && GroupFor(coupons, c, s, g)
  }

  ghost predicate RowAsked(coupons: seq<CouponInput>, row: SettingRow) {
    exists c, s :: RowFor(coupons, c, s, row)
  }

  ghost predicate GroupAsked(coupons: seq<CouponInput>, g: Group) {
    exists c, s :: GroupFor(coupons, c, s, g)
  }

  /** Its rows are those of the settings of the request and the vault's, and no other. */
  lemma {:induction false} CreatedRows(coupons: seq<CouponInput>, cs: seq<LabelledCoupon>)
    requires AllLabelled(coupons, cs)
    ensures var rows := CreatedMachine(cs).settings;
            && (forall c, s :: 0 <= c < |coupons| && 0 <= s < |coupons[c].currencySettings| ==>
                  HasRow(coupons, c, s, rows))
            && forall row :: row in rows ==>
                 row == SettingRow(AuthorityLabel, |coupons|, SOL_ADDRESS, 0) || RowAsked(coupons, row)
  {
    var rows := CreatedMachine(cs).settings;
    forall c: nat, s: nat | c < |coupons| && s < |coupons[c].currencySettings| ensures HasRow(coupons, c, s, rows) {
      EverySettingStored(coupons, cs, c, s);
    }
    var stored := AllSettings(cs, 0);
    forall row | row in stored ensures RowAsked(coupons, row) {
      var k :| 0 <= k < |stored| && stored[k] == row;
      StoredFromSetting(coupons, cs, k);
    }
  }

  /** Its groups are those of the settings of the request and the authority's, which asks for nothing. */
  lemma {:induction false} CreatedGroups(coupons: seq<CouponInput>, cs: seq<LabelledCoupon>)
    requires AllLabelled(coupons, cs)
    ensures var groups := CreatedMachine(cs).groups;
            && (forall c, s :: 0 <= c < |coupons| && 0 <= s < |coupons[c].currencySettings| ==>
                  HasGroupFor(coupons, c, s, groups))
            && forall g :: g in groups ==> g == Group(AuthorityLabel, SolPayment(0), None) || GroupAsked(coupons, g)
  {
    var groups := CreatedMachine(cs).groups;
    forall c: nat, s: nat | c < |coupons| && s < |coupons[c].currencySettings|
      ensures HasGroupFor(coupons, c, s, groups)
    {
      EverySettingStored(coupons, cs, c, s);
    }
    var onChain := AllGroups(cs);
    AllPairs(cs, 0);
    forall g | g in onChain ensures GroupAsked(coupons, g) {
      var k :| 0 <= k < |onChain| && onChain[k] == g;
      StoredFromSetting(coupons, cs, k);
    }
  }
}

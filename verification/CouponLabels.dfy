/** Labels of a coupon's currency settings: what they look like and how creation hands them out. */
module CouponLabels {
  import opened Wrappers
  import opened Text
  import opened Constants

  datatype CouponType = WhitelistedWallet | WhitelistedUser | RegisteredUser | PublicUser

  function Prefix(couponType: CouponType): string {
    match couponType
    case PublicUser => "pu"
    case WhitelistedUser => "wu"
    case RegisteredUser => "ru"
    case WhitelistedWallet => "ww"
  }

  /** The label of a guard group: the authority's, or the template `${type}${i}-${j}`. Two labels are the same
      string exactly when they are the same value (`TextInjective`). */
  datatype Label =
    | AuthorityLabel
    | CouponLabel(couponType: CouponType, couponTypeIteration: nat, currencyCouponIteration: nat)
  {
    function Text(): string {
      match this
      case AuthorityLabel => AUTHORITY_GROUP_LABEL
      case CouponLabel(t, i, j) => Prefix(t) + Decimal(i) + ['-'] + Decimal(j)
    }
  }

  /** What a label looks like. */
  lemma {:induction false} LabelTexts(i: nat, j: nat)
    ensures AuthorityLabel.Text() == "dAuth"
    ensures CouponLabel(PublicUser, i, j).Text() == "pu" + Decimal(i) + "-" + Decimal(j)
    ensures CouponLabel(WhitelistedUser, i, j).Text() == "wu" + Decimal(i) + "-" + Decimal(j)
    ensures CouponLabel(RegisteredUser, i, j).Text() == "ru" + Decimal(i) + "-" + Decimal(j)
    ensures CouponLabel(WhitelistedWallet, i, j).Text() == "ww" + Decimal(i) + "-" + Decimal(j)
  {}

  lemma {:induction false} SplitPrefix(p: string, rest: string, p': string, rest': string)
    requires |p| == |p'| == 2 && p + rest == p' + rest'
    ensures p == p' && rest == rest'
  {
    assert (p + rest)[..2] == p && (p' + rest')[..2] == p';
    assert (p + rest)[2..] == rest && (p' + rest')[2..] == rest';
  }

  lemma {:induction false} PrefixInjective(t: CouponType, t': CouponType)
    requires Prefix(t) == Prefix(t')
    ensures t == t'
  {
    assert Prefix(t)[0] == Prefix(t')[0] && Prefix(t)[1] == Prefix(t')[1];
  }

  lemma {:induction false} NotAuthority(t: CouponType, i: nat, j: nat)
    ensures CouponLabel(t, i, j).Text() != AuthorityLabel.Text()
  {
    assert CouponLabel(t, i, j).Text()[0] == Prefix(t)[0];
    assert AuthorityLabel.Text()[0] == 'd';
  }

  lemma {:induction false} TemplateInjective(p: string, i: nat, j: nat, p': string, i': nat, j': nat)
    requires |p| == |p'| == 2 && '-' !in p && '-' !in p'
    requires p + Decimal(i) + ['-'] + Decimal(j) == p' + Decimal(i') + ['-'] + Decimal(j')
    ensures p == p' && i == i' && j == j'
  {
    SplitAtFirst(p + Decimal(i), Decimal(j), p' + Decimal(i'), Decimal(j'), '-');
    SplitPrefix(p, Decimal(i), p', Decimal(i'));
    DecimalInjective(i, i');
    DecimalInjective(j, j');
  }

  lemma {:induction false} CouponTextInjective(a: Label, b: Label)
    requires a.CouponLabel? && b.CouponLabel? && a.Text() == b.Text()
    ensures a == b
  {
    TemplateInjective(Prefix(a.couponType), a.couponTypeIteration, a.currencyCouponIteration,
                      Prefix(b.couponType), b.couponTypeIteration, b.currencyCouponIteration);
    PrefixInjective(a.couponType, b.couponType);
  }

  lemma {:induction false} TextInjective(a: Label, b: Label)
    ensures a.Text() == b.Text() <==> a == b
  {
    if a.CouponLabel? && b.CouponLabel? {
      if a.Text() == b.Text() {
        CouponTextInjective(a, b);
      }
    } else if a.CouponLabel? {
      NotAuthority(a.couponType, a.couponTypeIteration, a.currencyCouponIteration);
    } else if b.CouponLabel? {
      NotAuthority(b.couponType, b.couponTypeIteration, b.currencyCouponIteration);
    }
  }

  /** A group label has at most six characters: room for ten coupons of a type with a hundred currencies,
      or the other way round. */
  lemma {:induction false} LabelFits(t: CouponType, i: nat, j: nat)
    ensures |CouponLabel(t, i, j).Text()| <= 6 <==> (i < 10 && j < 100) || (i < 100 && j < 10)
  {
    DecimalLength(i);
    DecimalLength(j);
  }

  // ---------- labels at creation ----------

  datatype SettingInput = SettingInput(splTokenAddress: Option<string>, mintPrice: nat)
  datatype CouponInput = CouponInput(couponType: CouponType, supply: nat, currencySettings: seq<SettingInput>)
  datatype LabelledSetting = LabelledSetting(groupLabel: Label, splTokenAddress: string, mintPrice: nat)
  datatype LabelledCoupon = LabelledCoupon(couponType: CouponType, supply: nat, currencySettings: seq<LabelledSetting>)

  function TokenOrSol(token: Option<string>): string {
    match token
    case None => SOL_ADDRESS
    case Some(address) => address
  }

  /** How many coupons of a type are in the list. */
  function CountType(coupons: seq<CouponInput>, t: CouponType): nat {
    if coupons == [] then 0 else (if coupons[0].couponType == t then 1 else 0) + CountType(coupons[1..], t)
  }

  /** The labelled form of coupon `c` of a request: the iteration is the number of later coupons of its
      type, the currency iteration counts down to 0. */
  ghost predicate IsLabelled(coupons: seq<CouponInput>, c: nat, r: LabelledCoupon)
    requires c < |coupons|
  {
    var coupon := coupons[c];
    && r.couponType == coupon.couponType && r.supply == coupon.supply
    && |r.currencySettings| == |coupon.currencySettings|
    && forall s :: 0 <= s < |r.currencySettings| ==>
         r.currencySettings[s] == LabelledSetting(
           CouponLabel(coupon.couponType, CountType(coupons[c + 1..], coupon.couponType),
             |coupon.currencySettings| - 1 - s),
           TokenOrSol(coupon.currencySettings[s].splTokenAddress), coupon.currencySettings[s].mintPrice)
  }

  method CountTypes(coupons: seq<CouponInput>) returns (typeFrequencyMap: map<CouponType, nat>)
    ensures forall t :: (t in typeFrequencyMap <==> CountType(coupons, t) > 0)
    ensures forall t :: t in typeFrequencyMap ==> typeFrequencyMap[t] == CountType(coupons, t)
  {
    typeFrequencyMap := map[];
    for i := 0 to |coupons|
      invariant forall t :: (t in typeFrequencyMap <==> CountType(coupons[..i], t) > 0)
      invariant forall t :: t in typeFrequencyMap ==> typeFrequencyMap[t] == CountType(coupons[..i], t)
    {
      var t := coupons[i].couponType;
      forall u ensures CountType(coupons[..i + 1], u) == CountType(coupons[..i], u) + (if t == u then 1 else 0) {
        CountAppend(coupons[..i], coupons[i], u);
        assert coupons[..i + 1] == coupons[..i] + [coupons[i]];
      }
      typeFrequencyMap := typeFrequencyMap[t := (if t in typeFrequencyMap then typeFrequencyMap[t] else 0) + 1];
    }
    assert coupons[..|coupons|] == coupons;
  }

  lemma {:induction false} CountAppend(coupons: seq<CouponInput>, coupon: CouponInput, t: CouponType)
    ensures CountType(coupons + [coupon], t) == CountType(coupons, t) + (if coupon.couponType == t then 1 else 0)
  {
    if coupons != [] {
      CountAppend(coupons[1..], coupon, t);
      assert (coupons + [coupon])[1..] == coupons[1..] + [coupon];
    }
  }

  method LabelSettings(coupon: CouponInput, typeFrequency: nat) returns (currencySettings: seq<LabelledSetting>)
    ensures |currencySettings| == |coupon.currencySettings|
    ensures forall s :: 0 <= s < |currencySettings| ==>
              currencySettings[s] == LabelledSetting(
                CouponLabel(coupon.couponType, typeFrequency, |coupon.currencySettings| - 1 - s),
                TokenOrSol(coupon.currencySettings[s].splTokenAddress), coupon.currencySettings[s].mintPrice)
  {
    currencySettings := [];
    var currencyFrequency := |coupon.currencySettings|;
    for s := 0 to |coupon.currencySettings|
      invariant currencyFrequency == |coupon.currencySettings| - s
      invariant |currencySettings| == s
      invariant forall k :: 0 <= k < s ==>
                  currencySettings[k] == LabelledSetting(
                    CouponLabel(coupon.couponType, typeFrequency, |coupon.currencySettings| - 1 - k),
                    TokenOrSol(coupon.currencySettings[k].splTokenAddress), coupon.currencySettings[k].mintPrice)
    {
      var currency := coupon.currencySettings[s];
      currencyFrequency := currencyFrequency - 1;
      currencySettings := currencySettings + [LabelledSetting(
        CouponLabel(coupon.couponType, typeFrequency, currencyFrequency), TokenOrSol(currency.splTokenAddress),
          currency.mintPrice)];
    }
  }

  /** Creation's labelling, with the frequency map counted up first and run down afterwards. */
  method GetCouponsWithLabels(coupons: seq<CouponInput>) returns (couponsWithLabel: seq<LabelledCoupon>)
    ensures |couponsWithLabel| == |coupons|
    ensures forall c :: 0 <= c < |coupons| ==> IsLabelled(coupons, c, couponsWithLabel[c])
  {
    var typeFrequencyMap := CountTypes(coupons);
    couponsWithLabel := [];
    ghost var rest := coupons;
    for c := 0 to |coupons|
      invariant rest == coupons[c..]
      invariant |couponsWithLabel| == c
      invariant forall k :: 0 <= k < c ==> IsLabelled(coupons, k, couponsWithLabel[k])
      invariant forall t :: CountType(rest, t) > 0 ==>
                  t in typeFrequencyMap && typeFrequencyMap[t] == CountType(rest, t)
    {
      var coupon := coupons[c];
      assert coupon == rest[0] && rest[1..] == coupons[c + 1..];
      var typeFrequency := typeFrequencyMap[coupon.couponType] - 1;
      var currencySettings := LabelSettings(coupon, typeFrequency);
      typeFrequencyMap := typeFrequencyMap[coupon.couponType := typeFrequency];
      couponsWithLabel := couponsWithLabel + [LabelledCoupon(coupon.couponType, coupon.supply, currencySettings)];
      rest := rest[1..];
    }
  }
}

/** Cutting a supply into rarity parts: floors for all but the last rarity, the remainder for the last. */
module RaritySplit {
  import opened Constants

  function Sum(parts: seq<nat>): nat {
    if parts == [] then 0 else parts[0] + Sum(parts[1..])
  }

  lemma {:induction false} SumAppend(a: seq<nat>, b: seq<nat>)
    ensures Sum(a + b) == Sum(a) + Sum(b)
  {
    if a == [] {
      assert a + b == b;
    } else {
      SumAppend(a[1..], b);
      assert (a + b)[1..] == a[1..] + b;
    }
  }

  lemma {:induction false} TotalShareAppend(a: seq<RarityShare>, b: seq<RarityShare>)
    ensures TotalShare(a + b) == TotalShare(a) + TotalShare(b)
  {
    if a == [] {
      assert a + b == b;
    } else {
      TotalShareAppend(a[1..], b);
      assert (a + b)[1..] == a[1..] + b;
    }
  }

  /** `part` is `supply * value` percent rounded down. */
  predicate IsFloorShare(supply: nat, value: nat, part: nat) {
    100 * part <= supply * value < 100 * (part + 1)
  }

  /** The split the source promises: nothing lost, and every part but the last rounded down. */
  ghost predicate IsSplit(supply: nat, shares: seq<RarityShare>, parts: seq<nat>) {
    && |parts| == |shares|
    && Sum(parts) == supply
    && forall i :: 0 <= i < |shares| - 1 ==> IsFloorShare(supply, shares[i].value, parts[i])
  }

  /** The loop over the share table, with `supplyLeft` running down. Every `supplyLeft` handed to the next
      rarity is non-negative: this is why the floors never overshoot and the insertion loop ends. */
  method SplitSupply(supply: nat, shares: seq<RarityShare>) returns (parts: seq<nat>)
    requires ValidShares(shares)
    ensures IsSplit(supply, shares, parts)
  {
    parts := [];
    var supplyLeft: int := supply;
    ghost var given := 0;
    for i := 0 to |shares|
      invariant |parts| == i && given == TotalShare(shares[..i]) <= 100
      invariant forall k :: 0 <= k < i && k < |shares| - 1 ==> IsFloorShare(supply, shares[k].value, parts[k])
      invariant i < |shares| ==> 0 <= supplyLeft && Sum(parts) + supplyLeft == supply
      invariant i < |shares| ==> 100 * supplyLeft >= supply * (100 - given)
      invariant i == |shares| ==> Sum(parts) == supply
    {
      PrefixTotal(shares, i);
      var part: nat;
      if i + 1 == |shares| {
        part := supplyLeft;
      } else {
        part := supply * shares[i].value / 100;
        FloorLeavesEnough(supply, given, shares[i].value, supplyLeft);
        supplyLeft := supplyLeft - part;
      }
      given := given + shares[i].value;
      SumAppend(parts, [part]);
      parts := parts + [part];
    }
  }

  /** After a floor share is taken, what is left still covers the percentages not yet served. */
  lemma {:induction false} FloorLeavesEnough(supply: nat, given: nat, value: nat, left: int)
    requires given + value <= 100
    requires 100 * left >= supply * (100 - given)
    ensures var part := supply * value / 100;
            && IsFloorShare(supply, value, part)
            && 100 * (left - part) >= supply * (100 - (given + value)) >= 0
  {
    assert supply * (100 - given) == supply * value + supply * (100 - (given + value));
  }

  lemma {:induction false} PrefixTotal(shares: seq<RarityShare>, i: nat)
    requires i < |shares| && TotalShare(shares) == 100
    ensures TotalShare(shares[..i + 1]) == TotalShare(shares[..i]) + shares[i].value
    ensures TotalShare(shares[..i + 1]) <= 100
  {
    assert shares[..i + 1] == shares[..i] + [shares[i]];
    TotalShareAppend(shares[..i], [shares[i]]);
    assert shares == shares[..i + 1] + shares[i + 1..];
    TotalShareAppend(shares[..i + 1], shares[i + 1..]);
  }

  /** The same split as a function, for use in specifications. */
  function Split(supply: nat, left: nat, shares: seq<RarityShare>): (parts: seq<nat>)
    requires shares != []
    requires 100 * left >= supply * TotalShare(shares)
    ensures |parts| == |shares|
    ensures Sum(parts) == left
    ensures forall i :: 0 <= i < |shares| - 1 ==> IsFloorShare(supply, shares[i].value, parts[i])
  {
    if |shares| == 1 then [left]
    else
      var part := supply * shares[0].value / 100;
      assert supply * TotalShare(shares) == supply * shares[0].value + supply * TotalShare(shares[1..]);
      [part] + Split(supply, left - part, shares[1..])
  }

  lemma {:induction false} SplitUnique(supply: nat, shares: seq<RarityShare>, p: seq<nat>, q: seq<nat>)
    requires shares != []
    requires |p| == |q| == |shares| && Sum(p) == Sum(q)
    requires forall i :: 0 <= i < |shares| - 1 ==>
               IsFloorShare(supply, shares[i].value, p[i]) && IsFloorShare(supply, shares[i].value, q[i])
    ensures p == q
  {
    if |shares| > 1 {
      assert p[0] == q[0];
      SplitUnique(supply, shares[1..], p[1..], q[1..]);
      assert p == [p[0]] + p[1..] && q == [q[0]] + q[1..];
    } else {
      assert p[1..] == [] && q[1..] == [];
    }
  }

  lemma {:induction false} FloorsBelowIdeal(supply: nat, shares: seq<RarityShare>, parts: seq<nat>)
    requires |shares| == |parts|
    requires forall i :: 0 <= i < |shares| ==> IsFloorShare(supply, shares[i].value, parts[i])
    ensures 100 * Sum(parts) <= supply * TotalShare(shares)
    ensures supply * TotalShare(shares) <= 100 * Sum(parts) + 99 * |shares|
  {
    if shares != [] {
      FloorsBelowIdeal(supply, shares[1..], parts[1..]);
      assert supply * TotalShare(shares) == supply * shares[0].value + supply * TotalShare(shares[1..]);
    }
  }

  lemma {:induction false} Hundred(supply: nat, a: nat, b: nat)
    requires a + b == 100
    ensures supply * a + supply * b == 100 * supply
  {
    assert supply * (a + b) == supply * a + supply * b;
  }

  lemma {:induction false} FloorsOfOthers(supply: nat, shares: seq<RarityShare>, parts: seq<nat>)
    requires shares != [] && IsSplit(supply, shares, parts)
    ensures var n := |shares| - 1;
            100 * Sum(parts[..n]) <= supply * TotalShare(shares[..n]) <= 100 * Sum(parts[..n]) + 99 * n
  {
    FloorsBelowIdeal(supply, shares[..|shares| - 1], parts[..|shares| - 1]);
  }

  lemma {:induction false} LastOfTotals(shares: seq<RarityShare>, parts: seq<nat>)
    requires |shares| == |parts| && shares != []
    ensures var n := |shares| - 1;
            TotalShare(shares) == TotalShare(shares[..n]) + shares[n].value && Sum(parts) == Sum(parts[..n]) + parts[n]
  {
    var n := |shares| - 1;
    assert shares == shares[..n] + [shares[n]] && parts == parts[..n] + [parts[n]];
    TotalShareAppend(shares[..n], [shares[n]]);
    SumAppend(parts[..n], [parts[n]]);
  }

  lemma {:induction false} LeftForLast(supply: nat, before: nat, own: nat, floors: nat, last: nat, slack: nat)
    requires before + own == 100 * supply && floors + last == supply
    requires 100 * floors <= before <= 100 * floors + slack
    ensures own <= 100 * last <= own + slack
  {}

  /** The last part is never below its ideal and exceeds it by less than one item per other rarity. */
  lemma {:induction false} LastPartBounds(supply: nat, shares: seq<RarityShare>, parts: seq<nat>)
    requires ValidShares(shares) && IsSplit(supply, shares, parts)
    ensures var n := |shares| - 1;
            supply * shares[n].value <= 100 * parts[n] <= supply * shares[n].value + 99 * n
  {
    var n := |shares| - 1;
    FloorsOfOthers(supply, shares, parts);
    LastOfTotals(shares, parts);
    Hundred(supply, TotalShare(shares[..n]), shares[n].value);
    LeftForLast(supply, supply * TotalShare(shares[..n]), supply * shares[n].value, Sum(parts[..n]), parts[n], 99 * n);
  }

  /** Of a hundred items, or of any number of hundreds, the tables give out these. */
  lemma {:induction false} SplitOfHundreds(supply: nat, k: nat, numberOfRarities: nat, parts: seq<nat>)
    requires supply == 100 * k && GetRarityShareTable(numberOfRarities).Some?
    requires IsSplit(supply, GetRarityShareTable(numberOfRarities).value, parts)
    ensures parts == if numberOfRarities == 1 then [100 * k]
                     else if numberOfRarities == 3 then [70 * k, 25 * k, 5 * k]
                     else [60 * k, 25 * k, 10 * k, 3 * k, 2 * k]
  {
    var shares := GetRarityShareTable(numberOfRarities).value;
    TablesAreValid(numberOfRarities);
    LastPartBounds(supply, shares, parts);
    var n := |shares| - 1;
    forall i | 0 <= i < n ensures parts[i] == shares[i].value * k {
      assert IsFloorShare(supply, shares[i].value, parts[i]);
    }
    LastOfHundreds(k, shares, parts);
  }

  lemma {:induction false} LastOfHundreds(k: nat, shares: seq<RarityShare>, parts: seq<nat>)
    requires ValidShares(shares) && IsSplit(100 * k, shares, parts)
    ensures parts[|shares| - 1] == k * shares[|shares| - 1].value
  {
    ScaledSum(k, shares, parts, |shares| - 1);
    LastOfTotals(shares, parts);
    Hundred(k, TotalShare(shares[..|shares| - 1]), shares[|shares| - 1].value);
  }

  lemma {:induction false} ScaledSum(k: nat, shares: seq<RarityShare>, parts: seq<nat>, n: nat)
    requires n <= |shares| == |parts|
    requires forall i :: 0 <= i < n ==> IsFloorShare(100 * k, shares[i].value, parts[i])
    ensures Sum(parts[..n]) == k * TotalShare(shares[..n])
  {
    if n > 0 {
      ScaledSum(k, shares, parts, n - 1);
      assert IsFloorShare(100 * k, shares[n - 1].value, parts[n - 1]);
      WholePart(k, shares[n - 1].value, parts[n - 1]);
      assert shares[..n] == shares[..n - 1] + [shares[n - 1]] && parts[..n] == parts[..n - 1] + [parts[n - 1]];
      TotalShareAppend(shares[..n - 1], [shares[n - 1]]);
      SumAppend(parts[..n - 1], [parts[n - 1]]);
      assert k * (TotalShare(shares[..n - 1]) + shares[n - 1].value)
          == k * TotalShare(shares[..n - 1]) + k * shares[n - 1].value;
    }
  }

  lemma {:induction false} WholePart(k: nat, value: nat, part: nat)
    requires IsFloorShare(100 * k, value, part)
    ensures part == k * value
  {
    assert 100 * k * value == 100 * (k * value);
  }

  /** A supply that passes the publishing gate gives every rarity at least one item. */
  lemma {:induction false} GateFillsEveryRarity(numberOfRarities: nat, supply: nat, parts: seq<nat>)
    requires GetRarityShareTable(numberOfRarities).Some?
    requires IsSplit(supply, GetRarityShareTable(numberOfRarities).value, parts)
    requires MinSupply(numberOfRarities).Some? && MinSupply(numberOfRarities).value <= supply
    ensures forall i :: 0 <= i < |parts| ==> parts[i] >= 1
  {
    var shares := GetRarityShareTable(numberOfRarities).value;
    TablesAreValid(numberOfRarities);
    MinSupplyExact(numberOfRarities, supply);
    LastPartBounds(supply, shares, parts);
    forall i | 0 <= i < |parts| ensures parts[i] >= 1 {
      assert supply * shares[i].value >= 100;
      if i < |shares| - 1 {
        assert IsFloorShare(supply, shares[i].value, parts[i]);
      }
    }
  }

  /** Exactly which supplies leave no rarity empty. The gate asks for 20 and 50 where 4 and 34 would do,
      because the last rarity takes the rounding losses of the others. */
  lemma {:induction false} NoEmptyRarityExact(numberOfRarities: nat, supply: nat, parts: seq<nat>)
    requires GetRarityShareTable(numberOfRarities).Some?
    requires IsSplit(supply, GetRarityShareTable(numberOfRarities).value, parts)
    ensures (forall i :: 0 <= i < |parts| ==> parts[i] >= 1)
            <==> supply >= (if numberOfRarities == 5 then 34 else if numberOfRarities == 3 then 4 else 1)
  {
    var shares := GetRarityShareTable(numberOfRarities).value;
    TablesAreValid(numberOfRarities);
    LastPartBounds(supply, shares, parts);
    forall i | 0 <= i < |shares| - 1 ensures parts[i] >= 1 <==> supply * shares[i].value >= 100 {
      assert IsFloorShare(supply, shares[i].value, parts[i]);
    }
    var n := |shares| - 1;
    if numberOfRarities == 5 {
      assert parts[3] >= 1 <==> supply >= 34;
      assert supply >= 34 ==> parts[0] >= 1 && parts[1] >= 1 && parts[2] >= 1;
    } else if numberOfRarities == 3 {
      assert parts[1] >= 1 <==> supply >= 4;
    }
  }
}

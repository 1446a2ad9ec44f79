/** Rarity share tables, the supply gate, and the constants the insertion plan depends on. */
module Constants {
  import opened Wrappers

  datatype ComicRarity = NoRarity | Common | Uncommon | Rare | Epic | Legendary

  datatype RarityShare = RarityShare(rarity: ComicRarity, value: nat)

  const THREE_RARITIES_SHARE := [RarityShare(Common, 70), RarityShare(Rare, 25), RarityShare(Legendary, 5)]
  const FIVE_RARITIES_SHARE := [RarityShare(Common, 60), RarityShare(Uncommon, 25), RarityShare(Rare, 10),
                                RarityShare(Epic, 3), RarityShare(Legendary, 2)]
  const ONE_RARITY_SHARE := [RarityShare(Common, 100)]

  const SOL_ADDRESS := "So11111111111111111111111111111111111111112"
  const AUTHORITY_GROUP_LABEL := "dAuth"
  const MIN_MINT_PROTOCOL_FEE := 29000000
  const MIN_CORE_MINT_PROTOCOL_FEE := 5500000
  const USERNAME_MAX_SIZE := 20

  /** The table for a number of covers; any other number throws. */
  function GetRarityShareTable(numberOfCovers: nat): Option<seq<RarityShare>> {
    match numberOfCovers
    case 3 => Some(THREE_RARITIES_SHARE)
    case 5 => Some(FIVE_RARITIES_SHARE)
    case 1 => Some(ONE_RARITY_SHARE)
    case _ => None
  }

  function TotalShare(shares: seq<RarityShare>): nat {
    if shares == [] then 0 else shares[0].value + TotalShare(shares[1..])
  }

  /** What the split needs of a table: something in it, every share positive, a total of 100 percent. */
  ghost predicate ValidShares(shares: seq<RarityShare>) {
    && shares != []
    && (forall i :: 0 <= i < |shares| ==> shares[i].value > 0)
    && TotalShare(shares) == 100
  }

  ghost predicate DistinctRarities(shares: seq<RarityShare>) {
    forall i, j :: 0 <= i < j < |shares| ==> shares[i].rarity != shares[j].rarity
  }

  lemma {:induction false} TablesAreValid(numberOfCovers: nat)
    requires GetRarityShareTable(numberOfCovers).Some?
    ensures ValidShares(GetRarityShareTable(numberOfCovers).value)
    ensures DistinctRarities(GetRarityShareTable(numberOfCovers).value)
    ensures |GetRarityShareTable(numberOfCovers).value| == numberOfCovers
  {
    var t := GetRarityShareTable(numberOfCovers).value;
    if |t| >= 3 {
      assert t[1..][1..] == t[2..];
      assert t[2..][1..] == t[3..];
    }
    if |t| == 5 {
      assert t[3..][1..] == t[4..];
    }
  }

  function MinShare(shares: seq<RarityShare>): nat
    requires shares != []
  {
    if |shares| == 1 then shares[0].value
    else var rest := MinShare(shares[1..]); if shares[0].value < rest then shares[0].value else rest
  }

  lemma {:induction false} MinShareIsLeast(shares: seq<RarityShare>) returns (at: nat)
    requires shares != []
    ensures forall i :: 0 <= i < |shares| ==> MinShare(shares) <= shares[i].value
    ensures at < |shares| && MinShare(shares) == shares[at].value
  {
    at := 0;
    if |shares| > 1 {
      var rest := MinShareIsLeast(shares[1..]);
      assert forall k :: 0 < k < |shares| ==> shares[1..][k - 1] == shares[k];
      at := if shares[0].value < MinShare(shares[1..]) then 0 else rest + 1;
    }
  }

  /** Math.ceil(100 / minShare), or a throw when the number of rarities is unsupported. */
  function MinSupply(numberOfRarities: nat): Option<nat> {
    match GetRarityShareTable(numberOfRarities)
    case None => None
    case Some(shares) =>
      var least := MinShare(shares);
      if least == 0 then None else Some((100 + least - 1) / least)
  }

  /** The gate is exact for the ideal shares: a supply passes it just when one percent-share of every
      rarity amounts to a whole item. */
  lemma {:induction false} MinSupplyExact(numberOfRarities: nat, supply: nat)
    requires GetRarityShareTable(numberOfRarities).Some?
    ensures MinSupply(numberOfRarities).Some?
    ensures var shares := GetRarityShareTable(numberOfRarities).value;
            MinSupply(numberOfRarities).value <= supply
            <==> forall i :: 0 <= i < |shares| ==> supply * shares[i].value >= 100
  {
    var shares := GetRarityShareTable(numberOfRarities).value;
    TablesAreValid(numberOfRarities);
    var at := MinShareIsLeast(shares);
    var least := MinShare(shares);
    assert least > 0;
    CeilingExact(least, supply);
    if supply * least >= 100 {
      forall i | 0 <= i < |shares| ensures supply * shares[i].value >= 100 {
        ScaleMonotone(supply, least, shares[i].value);
      }
    }
  }

  /** The gate in numbers. */
  lemma {:induction false} MinSupplyNumbers(numberOfRarities: nat)
    ensures MinSupply(1) == Some(1) && MinSupply(3) == Some(20) && MinSupply(5) == Some(50)
    ensures MinSupply(numberOfRarities).Some? <==> numberOfRarities in {1, 3, 5}
  {
    var three, five := THREE_RARITIES_SHARE, FIVE_RARITIES_SHARE;
    assert MinShare(three[2..]) == 5 && three[1..][1..] == three[2..];
    assert MinShare(three[1..]) == 5 && MinShare(three) == 5;
    assert MinShare(five[4..]) == 2 && five[3..][1..] == five[4..];
    assert MinShare(five[3..]) == 2 && five[2..][1..] == five[3..];
    assert MinShare(five[2..]) == 2 && five[1..][1..] == five[2..];
    assert MinShare(five[1..]) == 2 && MinShare(five) == 2;
  }

  lemma {:induction false} CeilingExact(least: nat, supply: nat)
    requires least > 0
    ensures (100 + least - 1) / least <= supply <==> supply * least >= 100
  {
    var up := (100 + least - 1) / least;
    assert up * least + (100 + least - 1) % least == 100 + least - 1;
    assert 100 <= up * least < 100 + least;
    if up <= supply {
      ScaleMonotone(least, up, supply);
    } else {
      ScaleMonotone(least, supply, up - 1);
      assert (up - 1) * least == up * least - least;
    }
  }

  lemma {:induction false} ScaleMonotone(k: nat, a: nat, b: nat)
    requires a <= b
    ensures k * a <= k * b && a * k <= b * k
  {}
}

/** The command-line tool's flat insertion plan, and when it agrees with the batched one. */
module FlatInsert {
  import opened Wrappers
  import opened Constants
  import opened RaritySplit
  import opened InsertPlan

  function FindShare(shares: seq<RarityShare>, rarity: ComicRarity): (r: Option<RarityShare>)
    ensures r.Some? ==> r.value in shares && r.value.rarity == rarity
  {
    if shares == [] then None
    else if shares[0].rarity == rarity then Some(shares[0])
    else FindShare(shares[1..], rarity)
  }

  lemma {:induction false} ShareFoundExactly(shares: seq<RarityShare>, rarity: ComicRarity)
    ensures FindShare(shares, rarity).Some? <==> exists s :: s in shares && s.rarity == rarity
  {
    if shares != [] && shares[0].rarity != rarity {
      ShareFoundExactly(shares[1..], rarity);
      if s :| s in shares && s.rarity == rarity {
        assert s in shares[1..];
      }
    }
  }

  /** The parts the flat loop gives to the metadata rows, in the order the database returns the rows: only
      position `|shares| - 1` takes the remainder. None where the loop throws. */
  ghost function FlatConfigs(unused: seq<ItemMetadata>, shares: seq<RarityShare>, supply: nat, left: int, itr: nat)
    : Option<seq<RarityConfig>>
  {
    if unused == [] then Some([])
    else
      match FindShare(shares, unused[0].rarity)
      case None => None
      case Some(share) =>
        var last := itr == |shares| - 1;
        var part := if last then left else supply * share.value / 100;
        if part < 0 then None
        else
          Prepend([RarityConfig(unused[0].uri, part)],
                  FlatConfigs(unused[1..], shares, supply, if last then left else left - part, itr + 1))
  }

  ghost function FlatPlan(metadatas: seq<ItemMetadata>, supply: nat): Option<seq<RarityConfig>> {
    if |metadatas| % 4 != 0 then None
    else
      var table := GetRarityShareTable(|metadatas| / 4);
      if table.None? then None else FlatConfigs(UnusedUnsigned(metadatas), table.value, supply, supply, 0)
  }

  ghost function Prepend(configs: seq<RarityConfig>, rest: Option<seq<RarityConfig>>): Option<seq<RarityConfig>> {
    match rest
    case None => None
    case Some(r) => Some(configs + r)
  }

  lemma {:induction false} PrependLaws(configs: seq<RarityConfig>, config: RarityConfig,
          rest: Option<seq<RarityConfig>>)
    ensures Prepend([], rest) == rest
    ensures Prepend(configs, Some([])) == Some(configs)
    ensures Prepend(configs, Prepend([config], rest)) == Prepend(configs + [config], rest)
  {
    if rest.Some? {
      assert [] + rest.value == rest.value;
      assert configs + ([config] + rest.value) == (configs + [config]) + rest.value;
    }
    assert configs + [] == configs;
  }

  /** The loop over the metadata rows. */
  method FlatItems(unused: seq<ItemMetadata>, rarityShares: seq<RarityShare>, collectionName: string,
          candyMachineSupply: nat)
    returns (r: Result<seq<ConfigLine>, PlanError>)
    ensures var plan := FlatConfigs(unused, rarityShares, candyMachineSupply, candyMachineSupply, 0);
            && (r.Success? <==> plan.Some?)
            && (r.Success? ==> r.value == PlannedLines(plan.value, collectionName, 0))
  {
    var items: seq<ConfigLine> := [];
    ghost var configs: seq<RarityConfig> := [];
    var supplyLeft: int, itr: nat, nameIndex: nat := candyMachineSupply, 0, 0;
    ghost var plan := FlatConfigs(unused, rarityShares, candyMachineSupply, candyMachineSupply, 0);
    ghost var rows := unused;
    PrependLaws([], RarityConfig("", 0), plan);
    while itr < |unused|
      invariant itr <= |unused| && rows == unused[itr..]
      invariant items == PlannedLines(configs, collectionName, 0)
      invariant nameIndex == TotalSupply(configs)
      invariant plan == Prepend(configs, FlatConfigs(rows, rarityShares, candyMachineSupply, supplyLeft, itr))
    {
      var data := unused[itr];
      var share := FindShare(rarityShares, data.rarity);
      if share.None? {
        return Failure(MissingRarity);
      }
      var supply: int;
      if itr == |rarityShares| - 1 {
        supply := supplyLeft;
      } else {
        supply := candyMachineSupply * share.value.value / 100;
        supplyLeft := supplyLeft - supply;
      }
      if supply < 0 {
        return Failure(InvalidArrayLength);
      }
      ghost var config := RarityConfig(data.uri, supply);
      PrependLaws(configs, config, FlatConfigs(rows[1..], rarityShares, candyMachineSupply, supplyLeft, itr + 1));
      var inserted := ItemsFrom(data.uri, collectionName, nameIndex, supply);
      AppendRarity(configs, config, collectionName);
      nameIndex := nameIndex + supply;
      items := items + inserted;
      configs := configs + [config];
      itr := itr + 1;
      rows := rows[1..];
    }
    PrependLaws(configs, RarityConfig("", 0), None);
    r := Success(items);
  }

  // ---------- the flat plan in terms of the given rows ----------

  /** The items of the row at `p`: none unless it is neither used nor signed; what is left for the row that stands at
      the table's last position among such rows; for the others the share of their own rarity, rounded down. */
  ghost function OwnItems(rows: seq<ItemMetadata>, shares: seq<RarityShare>, supply: nat, p: nat): int
    requires p < |rows|
    decreases p, 1
  {
    var share := FindShare(shares, rows[p].rarity);
    if rows[p].isUsed || rows[p].isSigned || share.None? then 0
    else if |PlainRows(rows, p)| == |shares| - 1 then supply - ItemsBefore(rows, shares, supply, p)
    else supply * share.value.value / 100
  }

  ghost function ItemsBefore(rows: seq<ItemMetadata>, shares: seq<RarityShare>, supply: nat, p: nat): int
    requires p <= |rows|
    decreases p, 0
  {
    if p == 0 then 0
    else ItemsBefore(rows, shares, supply, p - 1) + OwnItems(rows, shares, supply, p - 1)
  }

  /** Every row from `p` on that is neither used nor signed has a share, and no negative number of items. */
  ghost predicate RowsFit(rows: seq<ItemMetadata>, shares: seq<RarityShare>, supply: nat, p: nat) {
    forall q :: p <= q < |rows| && !rows[q].isUsed && !rows[q].isSigned ==>
      FindShare(shares, rows[q].rarity).Some? && OwnItems(rows, shares, supply, q) >= 0
  }

  /** What the loop keeps in `supplyLeft` while it matters. */
  ghost predicate LeftAt(rows: seq<ItemMetadata>, shares: seq<RarityShare>, supply: nat, p: nat, left: int) {
    p <= |rows| && (|PlainRows(rows, p)| < |shares| ==> left == supply - ItemsBefore(rows, shares, supply, p))
  }

  ghost function FlatRest(rows: seq<ItemMetadata>, shares: seq<RarityShare>, supply: nat, p: nat, left: int)
    : Option<seq<RarityConfig>>
    requires p <= |rows|
  {
    FlatConfigs(UnusedUnsigned(rows[p..]), shares, supply, left, |PlainRows(rows, p)|)
  }

  /** A row the filter leaves out. */
  lemma {:induction false} RowLeftOut(rows: seq<ItemMetadata>, shares: seq<RarityShare>, supply: nat, p: nat,
          left: int)
    requires p < |rows| && (rows[p].isUsed || rows[p].isSigned) && LeftAt(rows, shares, supply, p, left)
    ensures LeftAt(rows, shares, supply, p + 1, left)
    ensures FlatRest(rows, shares, supply, p, left) == FlatRest(rows, shares, supply, p + 1, left)
    ensures OwnItems(rows, shares, supply, p) == 0
  {
    OneMoreRow(rows, p);
    assert rows[p..][1..] == rows[p + 1..];
    assert [] + UnusedUnsigned(rows[p + 1..]) == UnusedUnsigned(rows[p + 1..]);
  }

  /** A row the loop turns into items. */
  lemma {:induction false} RowTaken(rows: seq<ItemMetadata>, shares: seq<RarityShare>, supply: nat, p: nat, left: int)
    returns (left': int)
    requires p < |rows| && !rows[p].isUsed && !rows[p].isSigned && LeftAt(rows, shares, supply, p, left)
    requires FindShare(shares, rows[p].rarity).Some?
    ensures LeftAt(rows, shares, supply, p + 1, left')
    ensures var own := OwnItems(rows, shares, supply, p);
            FlatRest(rows, shares, supply, p, left)
            == if own < 0 then None
               else Prepend([RarityConfig(rows[p].uri, own)], FlatRest(rows, shares, supply, p + 1, left'))
  {
    var rank := |PlainRows(rows, p)|;
    OneMoreRow(rows, p);
    assert rows[p..][1..] == rows[p + 1..];
    var unused := UnusedUnsigned(rows[p..]);
    assert unused == [rows[p]] + UnusedUnsigned(rows[p + 1..]);
    assert unused[1..] == UnusedUnsigned(rows[p + 1..]);
    left' := if rank == |shares| - 1 then left else left - OwnItems(rows, shares, supply, p);
  }

  lemma {:induction false} FitFrom(rows: seq<ItemMetadata>, shares: seq<RarityShare>, supply: nat, p: nat)
    requires p < |rows|
    ensures RowsFit(rows, shares, supply, p)
            <==> RowsFit(rows, shares, supply, p + 1)
                 && (!rows[p].isUsed && !rows[p].isSigned ==>
                       FindShare(shares, rows[p].rarity).Some? && OwnItems(rows, shares, supply, p) >= 0)
  {}

  lemma {:induction false} RestExactly(rows: seq<ItemMetadata>, shares: seq<RarityShare>, supply: nat, p: nat,
          left: int)
    requires LeftAt(rows, shares, supply, p, left)
    ensures FlatRest(rows, shares, supply, p, left).Some? <==> RowsFit(rows, shares, supply, p)
    decreases |rows| - p
  {
    if p < |rows| {
      FitFrom(rows, shares, supply, p);
      if rows[p].isUsed || rows[p].isSigned {
        RowLeftOut(rows, shares, supply, p, left);
        RestExactly(rows, shares, supply, p + 1, left);
      } else if FindShare(shares, rows[p].rarity).Some? {
        var left' := RowTaken(rows, shares, supply, p, left);
        RestExactly(rows, shares, supply, p + 1, left');
      }
    }
  }

  /** The flat plan exists exactly when a quarter of the rows has a table, every row that is neither used nor signed
      has a share in it, and the row at its last position is left a number of items that is not negative. */
  lemma {:induction false} FlatPlanExactly(rows: seq<ItemMetadata>, supply: nat)
    ensures FlatPlan(rows, supply).Some?
            <==> |rows| % 4 == 0 && GetRarityShareTable(|rows| / 4).Some?
                 && RowsFit(rows, GetRarityShareTable(|rows| / 4).value, supply, 0)
  {
    if |rows| % 4 == 0 && GetRarityShareTable(|rows| / 4).Some? {
      FlatStart(rows, GetRarityShareTable(|rows| / 4).value, supply);
      RestExactly(rows, GetRarityShareTable(|rows| / 4).value, supply, 0, supply);
    }
  }

  lemma {:induction false} FlatStart(rows: seq<ItemMetadata>, shares: seq<RarityShare>, supply: nat)
    ensures LeftAt(rows, shares, supply, 0, supply)
    ensures FlatRest(rows, shares, supply, 0, supply) == FlatConfigs(UnusedUnsigned(rows), shares, supply, supply, 0)
  {
    assert rows[0..] == rows && PlainRows(rows, 0) == {};
  }

  lemma {:induction false} RestTotal(rows: seq<ItemMetadata>, shares: seq<RarityShare>, supply: nat, p: nat,
          left: int, rest: seq<RarityConfig>)
    requires LeftAt(rows, shares, supply, p, left) && FlatRest(rows, shares, supply, p, left) == Some(rest)
    ensures ItemsBefore(rows, shares, supply, p) + TotalSupply(rest) == ItemsBefore(rows, shares, supply, |rows|)
    decreases |rows| - p
  {
    if p < |rows| {
      if rows[p].isUsed || rows[p].isSigned {
        RowLeftOut(rows, shares, supply, p, left);
        RestTotal(rows, shares, supply, p + 1, left, rest);
      } else {
        var left' := RowTaken(rows, shares, supply, p, left);
        var own := OwnItems(rows, shares, supply, p);
        var tail := FlatRest(rows, shares, supply, p + 1, left').value;
        RestTotal(rows, shares, supply, p + 1, left', tail);
        assert rest[1..] == tail;
      }
    }
  }

  /** The tool's plan has the items of all rows. */
  lemma {:induction false} FlatPlanTotal(rows: seq<ItemMetadata>, supply: nat, plan: seq<RarityConfig>)
    requires FlatPlan(rows, supply) == Some(plan)
    ensures TotalSupply(plan) == ItemsBefore(rows, GetRarityShareTable(|rows| / 4).value, supply, |rows|)
  {
    var shares := GetRarityShareTable(|rows| / 4).value;
    FlatStart(rows, shares, supply);
    RestTotal(rows, shares, supply, 0, supply, plan);
  }

  /** Item `k` is made from the row at `p`. */
  ghost predicate FromRow(rows: seq<ItemMetadata>, shares: seq<RarityShare>, supply: nat, p: nat, k: nat,
          uri: string)
  {
    && p < |rows| && !rows[p].isUsed && !rows[p].isSigned && uri == rows[p].uri
    && ItemsBefore(rows, shares, supply, p) <= k < ItemsBefore(rows, shares, supply, p + 1)
  }

  lemma {:induction false} LineFromRow(rows: seq<ItemMetadata>, shares: seq<RarityShare>, supply: nat, p: nat,
          left: int, rest: seq<RarityConfig>, name: string, before: nat, k: nat)
    returns (q: nat)
    requires LeftAt(rows, shares, supply, p, left) && FlatRest(rows, shares, supply, p, left) == Some(rest)
    requires before == ItemsBefore(rows, shares, supply, p) && k < |PlannedLines(rest, name, before)|
    ensures FromRow(rows, shares, supply, q, before + k, PlannedLines(rest, name, before)[k].uri)
    decreases |rows| - p
  {
    if rows[p].isUsed || rows[p].isSigned {
      RowLeftOut(rows, shares, supply, p, left);
      q := LineFromRow(rows, shares, supply, p + 1, left, rest, name, before, k);
    } else {
      var left' := RowTaken(rows, shares, supply, p, left);
      var own := OwnItems(rows, shares, supply, p);
      var tail := FlatRest(rows, shares, supply, p + 1, left').value;
      PlannedCons(RarityConfig(rows[p].uri, own), tail, name, before);
      if k < own {
        q := p;
        ItemsAt(rows[p].uri, name, before, own, k);
      } else {
        q := LineFromRow(rows, shares, supply, p + 1, left', tail, name, before + own, k - own);
      }
    }
  }

  /** A line the tool writes at index `k`: the file of the row it is made from, and the next number. */
  ghost predicate RightFlatLine(rows: seq<ItemMetadata>, supply: nat, name: string, k: nat, line: ConfigLine) {
    && GetRarityShareTable(|rows| / 4).Some?
    && (exists p: nat :: FromRow(rows, GetRarityShareTable(|rows| / 4).value, supply, p, k, line.uri))
    && line.name == ItemName(name, k + 1)
  }

  ghost predicate RightFlatLines(rows: seq<ItemMetadata>, supply: nat, name: string, lines: seq<ConfigLine>) {
    forall k: nat :: k < |lines| ==> RightFlatLine(rows, supply, name, k, lines[k])
  }

  lemma {:induction false} FlatLinesAreRight(rows: seq<ItemMetadata>, supply: nat, plan: seq<RarityConfig>,
          name: string)
    requires FlatPlan(rows, supply) == Some(plan)
    ensures RightFlatLines(rows, supply, name, PlannedLines(plan, name, 0))
  {
    var shares := GetRarityShareTable(|rows| / 4).value;
    var lines := PlannedLines(plan, name, 0);
    FlatStart(rows, shares, supply);
    PlannedNames(plan, name, 0);
    forall k: nat | k < |lines| ensures RightFlatLine(rows, supply, name, k, lines[k]) {
      SomeRowOf(rows, shares, supply, plan, name, k);
    }
  }

  lemma {:induction false} SomeRowOf(rows: seq<ItemMetadata>, shares: seq<RarityShare>, supply: nat,
          plan: seq<RarityConfig>, name: string, k: nat)
    requires LeftAt(rows, shares, supply, 0, supply) && FlatRest(rows, shares, supply, 0, supply) == Some(plan)
    requires k < |PlannedLines(plan, name, 0)|
    ensures exists p: nat :: FromRow(rows, shares, supply, p, k, PlannedLines(plan, name, 0)[k].uri)
  {
    var p := LineFromRow(rows, shares, supply, 0, supply, plan, name, 0, k);
  }

  /** Every line the transactions write is the right one for its index. */
  ghost predicate AllRightFlat(rows: seq<ItemMetadata>, supply: nat, name: string, txs: seq<InsertTx>) {
    forall t, j :: 0 <= t < |txs| && 0 <= j < |txs[t].lines| ==>
      RightFlatLine(rows, supply, name, txs[t].index + j, txs[t].lines[j])
  }

  lemma {:induction false} SentAreRightFlat(rows: seq<ItemMetadata>, supply: nat, plan: seq<RarityConfig>,
          name: string, txs: seq<InsertTx>, lines: seq<ConfigLine>)
    requires FlatPlan(rows, supply) == Some(plan) && lines == PlannedLines(plan, name, 0) && Tiles(txs, 0, lines)
    ensures AllRightFlat(rows, supply, name, txs)
  {
    FlatLinesAreRight(rows, supply, plan, name);
    assert lines[..|lines|] == lines;
    forall t: nat, j: nat | t < |txs| && j < |txs[t].lines|
      ensures RightFlatLine(rows, supply, name, txs[t].index + j, txs[t].lines[j])
    {
      TilesAreLines(txs, lines, |lines|, t, j);
    }
  }

  /** The tool's whole run up to sending: all items in one list, cut into chunks of 8 from index 0, each with the file
      of the row it is made from. */
  method InsertItems(itemMetadatas: seq<ItemMetadata>, collectionName: string, candyMachineSupply: nat)
    returns (r: Result<seq<InsertTx>, PlanError>)
    ensures r.Success? <==> FlatPlan(itemMetadatas, candyMachineSupply).Some?
    ensures r.Success? ==>
              Tiles(r.value, 0, PlannedLines(FlatPlan(itemMetadatas, candyMachineSupply).value, collectionName, 0))
    ensures r.Success? ==> AllRightFlat(itemMetadatas, candyMachineSupply, collectionName, r.value)
  {
    if |itemMetadatas| % 4 != 0 {
      return Failure(UnsupportedRarities);
    }
    var table := GetRarityShareTable(|itemMetadatas| / 4);
    if table.None? {
      return Failure(UnsupportedRarities);
    }
    var items := FlatItems(UnusedUnsigned(itemMetadatas), table.value, collectionName, candyMachineSupply);
    if items.Failure? {
      return Failure(items.error);
    }
    var txs := ChunkTransactions(items.value, 0);
    ghost var plan := FlatPlan(itemMetadatas, candyMachineSupply).value;
    SentAreRightFlat(itemMetadatas, candyMachineSupply, plan, collectionName, txs, items.value);
    r := Success(txs);
  }

  method ItemsFrom(uri: string, collectionName: string, before: nat, supply: nat) returns (items: seq<ConfigLine>)
    ensures items == Items(uri, collectionName, before, supply)
  {
    items := [];
    var nameIndex := before;
    for k := 0 to supply
      invariant nameIndex == before + k && items == Items(uri, collectionName, before, k)
    {
      nameIndex := nameIndex + 1;
      items := items + [ConfigLine(uri, ItemName(collectionName, nameIndex))];
    }
  }

  lemma {:induction false} AppendRarity(configs: seq<RarityConfig>, config: RarityConfig, name: string)
    ensures TotalSupply(configs + [config]) == TotalSupply(configs) + config.supply
    ensures PlannedLines(configs + [config], name, 0)
         == PlannedLines(configs, name, 0) + Items(config.uri, name, TotalSupply(configs), config.supply)
  {
    assert (configs + [config])[..|configs|] == configs;
    assert (configs + [config])[..|configs| + 1] == configs + [config];
    ExtendPlan(configs + [config], |configs|, name, 0);
  }

  // ---------- the batched plan refines the flat one ----------

  /** The metadata rows come back in the order of the share table. */
  ghost predicate TableOrder(unused: seq<ItemMetadata>, shares: seq<RarityShare>) {
    && |unused| == |shares|
    && forall i :: 0 <= i < |shares| ==> unused[i].rarity == shares[i].rarity
  }

  lemma {:induction false} FindShareAt(shares: seq<RarityShare>, i: nat)
    requires i < |shares| && DistinctRarities(shares)
    ensures FindShare(shares, shares[i].rarity) == Some(shares[i])
  {
    if i > 0 {
      assert shares[0].rarity != shares[i].rarity;
      FindShareAt(shares[1..], i - 1);
    }
  }

  lemma {:induction false} FindMetadataAt(unused: seq<ItemMetadata>, shares: seq<RarityShare>, i: nat)
    requires TableOrder(unused, shares) && DistinctRarities(shares) && i < |shares|
    ensures FindMetadata(unused, shares[i].rarity) == Some(unused[i])
  {
    if i > 0 {
      assert shares[0].rarity != shares[i].rarity;
      FindMetadataAt(unused[1..], shares[1..], i - 1);
    }
  }

  function Uris(unused: seq<ItemMetadata>): (uris: seq<string>)
    ensures |uris| == |unused|
  {
    if unused == [] then [] else [unused[0].uri] + Uris(unused[1..])
  }

  ghost predicate OwnShares(tail: seq<RarityShare>, shares: seq<RarityShare>) {
    forall i :: 0 <= i < |tail| ==> FindShare(shares, tail[i].rarity) == Some(tail[i])
  }

  lemma {:induction false} TableOwnsItsShares(shares: seq<RarityShare>)
    requires DistinctRarities(shares)
    ensures OwnShares(shares, shares)
  {
    forall i | 0 <= i < |shares| ensures FindShare(shares, shares[i].rarity) == Some(shares[i]) {
      FindShareAt(shares, i);
    }
  }

  /** The flat loop over the rows left (`unused`), when the shares left (`tail`) match them one to one. */
  lemma {:induction false} FlatIsSplit(unused: seq<ItemMetadata>, tail: seq<RarityShare>, shares: seq<RarityShare>,
          supply: nat, left: nat)
    requires OwnShares(tail, shares) && 0 < |tail| <= |shares|
    requires TableOrder(unused, tail)
    requires 100 * left >= supply * TotalShare(tail)
    ensures FlatConfigs(unused, shares, supply, left, |shares| - |tail|)
            == Some(Zip(Uris(unused), Split(supply, left, tail)))
    decreases |tail|
  {
    var itr := |shares| - |tail|;
    if |tail| == 1 {
      assert FlatConfigs(unused[1..], shares, supply, left, itr + 1) == Some([]);
    } else {
      SplitStep(supply, left, tail);
      FlatIsSplit(unused[1..], tail[1..], shares, supply, left - supply * tail[0].value / 100);
    }
  }

  lemma {:induction false} SplitStep(supply: nat, left: nat, shares: seq<RarityShare>)
    requires |shares| > 1 && 100 * left >= supply * TotalShare(shares)
    ensures var part := supply * shares[0].value / 100;
            && left >= part && 100 * (left - part) >= supply * TotalShare(shares[1..])
            && Split(supply, left, shares) == [part] + Split(supply, left - part, shares[1..])
  {
    assert supply * TotalShare(shares) == supply * shares[0].value + supply * TotalShare(shares[1..]);
  }

  lemma {:induction false} OwnUris(tail: seq<ItemMetadata>, shareTail: seq<RarityShare>, unused: seq<ItemMetadata>,
          shares: seq<RarityShare>)
    requires TableOrder(unused, shares) && DistinctRarities(shares) && AllFound(shares, unused)
    requires |tail| == |shareTail| <= |shares|
    requires tail == unused[|unused| - |tail|..] && shareTail == shares[|shares| - |shareTail|..]
    ensures AllFound(shareTail, unused) && UrisFor(shareTail, unused) == Uris(tail)
  {
    if tail != [] {
      FindMetadataAt(unused, shares, |shares| - |shareTail|);
      OwnUris(tail[1..], shareTail[1..], unused, shares);
    }
  }

  /** Four rows a rarity, one of them unused and unsigned, as `uploadItemMetadata` writes them. */
  ghost predicate CompleteMetadata(metadatas: seq<ItemMetadata>) {
    |metadatas| == 4 * |UnusedUnsigned(metadatas)| && GetRarityShareTable(|UnusedUnsigned(metadatas)|).Some?
  }

  lemma {:induction false} WithRefinesFlat(unused: seq<ItemMetadata>, shares: seq<RarityShare>, supply: nat)
    requires ValidShares(shares) && DistinctRarities(shares) && TableOrder(unused, shares)
    ensures FlatConfigs(unused, shares, supply, supply, 0).Some?
    ensures FlatConfigs(unused, shares, supply, supply, 0) == BatchWith(shares, unused, supply)
  {
    TableOwnsItsShares(shares);
    FlatIsSplit(unused, shares, shares, supply, supply);
    forall i | 0 <= i < |shares| ensures FindMetadata(unused, shares[i].rarity).Some? {
      FindMetadataAt(unused, shares, i);
    }
    OwnUris(unused, shares, unused, shares);
  }

  /** Both plans work on the same table. */
  lemma {:induction false} PlansUnfold(metadatas: seq<ItemMetadata>, supply: nat, shares: seq<RarityShare>)
    requires CompleteMetadata(metadatas) && GetRarityShareTable(|UnusedUnsigned(metadatas)|) == Some(shares)
    ensures ValidShares(shares) && DistinctRarities(shares)
    ensures FlatPlan(metadatas, supply) == FlatConfigs(UnusedUnsigned(metadatas), shares, supply, supply, 0)
    ensures BatchPlan(metadatas, supply) == BatchWith(shares, UnusedUnsigned(metadatas), supply)
  {
    TablesAreValid(|UnusedUnsigned(metadatas)|);
    assert |metadatas| / 4 == |UnusedUnsigned(metadatas)| && |metadatas| % 4 == 0;
  }

  /** The table and the unused, unsigned rows both tools work on. */
  ghost predicate OnTable(metadatas: seq<ItemMetadata>, unused: seq<ItemMetadata>, shares: seq<RarityShare>) {
    unused == UnusedUnsigned(metadatas) && |metadatas| == 4 * |unused| && GetRarityShareTable(|unused|) == Some(shares)
  }

  /** With the rows in table order both plans exist and are the same. */
  lemma {:induction false} BatchRefinesFlat(metadatas: seq<ItemMetadata>, unused: seq<ItemMetadata>,
          shares: seq<RarityShare>, supply: nat)
    requires OnTable(metadatas, unused, shares) && TableOrder(unused, shares)
    ensures FlatPlan(metadatas, supply).Some?
    ensures FlatPlan(metadatas, supply) == BatchPlan(metadatas, supply)
  {
    PlansUnfold(metadatas, supply, shares);
    WithRefinesFlat(unused, shares, supply);
  }

  /** Runs that tile the same plan leave the same account, whatever their transactions. */
  lemma {:induction false} SameAccount(batched: seq<InsertTx>, flat: seq<InsertTx>, plan: seq<RarityConfig>,
          name: string)
    requires Tiles(batched, 0, PlannedLines(plan, name, 0)) && Tiles(flat, 0, PlannedLines(plan, name, 0))
    ensures Apply(map[], batched) == Apply(map[], flat)
    ensures forall i: nat :: i in Apply(map[], batched) <==> i < TotalSupply(plan)
  {
    var lines := PlannedLines(plan, name, 0);
    TilesFill(batched, 0, lines, map[]);
    TilesFill(flat, 0, lines, map[]);
    PlannedNames(plan, name, 0);
  }

  // ---------- the order of the rows matters ----------

  ghost predicate DistinctUris(unused: seq<ItemMetadata>) {
    forall i, j :: 0 <= i < |unused| && 0 <= j < |unused| && unused[i].uri == unused[j].uri ==>
      unused[i].rarity == unused[j].rarity
  }

  /** One percent-share of every rarity amounts to a whole item. */
  ghost predicate EveryShareFills(shares: seq<RarityShare>, supply: nat) {
    forall i :: 0 <= i < |shares| ==> supply * shares[i].value >= 100
  }

  /** What the two plans must agree on from one rarity on: `rows` and `tail` are what is left of each. */
  ghost predicate SameRest(rows: seq<ItemMetadata>, tail: seq<RarityShare>, unused: seq<ItemMetadata>,
          shares: seq<RarityShare>, supply: nat, left: nat, name: string, before: nat, flat: seq<RarityConfig>)
  {
    && 0 < |tail| == |rows| <= |shares|
    && (forall i :: 0 <= i < |rows| ==> rows[i] in unused)
    && OwnShares(tail, shares)
    && 100 * left >= supply * TotalShare(tail)
    && FlatConfigs(rows, shares, supply, left, |shares| - |tail|) == Some(flat)
    && AllFound(tail, unused)
    && PlannedLines(flat, name, before)
       == PlannedLines(Zip(UrisFor(tail, unused), Split(supply, left, tail)), name, before)
  }

  /** One turn of the flat loop, read backwards from its plan. */
  lemma {:induction false} FlatStep(rows: seq<ItemMetadata>, shares: seq<RarityShare>, supply: nat, left: nat,
          itr: nat, flat: seq<RarityConfig>)
    requires rows != [] && FlatConfigs(rows, shares, supply, left, itr) == Some(flat)
    ensures flat != [] && flat[0].uri == rows[0].uri && FindShare(shares, rows[0].rarity).Some?
    ensures itr == |shares| - 1 ==> flat[0].supply == left
    ensures itr == |shares| - 1 && |rows| == 1 ==> flat == [flat[0]]
    ensures itr != |shares| - 1 ==>
              && flat[0].supply == supply * FindShare(shares, rows[0].rarity).value.value / 100
              && FlatConfigs(rows[1..], shares, supply, left - flat[0].supply, itr + 1) == Some(flat[1..])
  {
    if itr == |shares| - 1 && |rows| == 1 {
      assert FlatConfigs(rows[1..], shares, supply, left, itr + 1) == Some([]);
    }
  }

  /** The first item of the remaining plans gives away which rarity comes next. */
  lemma {:induction false} HeadForced(rows: seq<ItemMetadata>, tail: seq<RarityShare>, unused: seq<ItemMetadata>,
          shares: seq<RarityShare>, supply: nat, left: nat, name: string, before: nat, flat: seq<RarityConfig>)
    requires DistinctUris(unused) && EveryShareFills(shares, supply)
    requires SameRest(rows, tail, unused, shares, supply, left, name, before, flat)
    ensures rows[0].rarity == tail[0].rarity
  {
    var batch := Zip(UrisFor(tail, unused), Split(supply, left, tail));
    FirstItem(flat, name, before);
    FirstItem(batch, name, before);
    assert FindShare(shares, tail[0].rarity).value in shares;
    HeadIsOwned(tail, supply, left);
    FlatStep(rows, shares, supply, left, |shares| - |tail|, flat);
    var owner := FindMetadata(unused, tail[0].rarity).value;
    assert rows[0] in unused && rows[0].uri == owner.uri;
  }

  lemma {:induction false} PlannedTail(configs: seq<RarityConfig>, name: string, before: nat)
    requires configs != []
    ensures configs[0].supply <= |PlannedLines(configs, name, before)|
    ensures PlannedLines(configs, name, before)[configs[0].supply..]
            == PlannedLines(configs[1..], name, before + configs[0].supply)
  {}

  lemma {:induction false} SameTail(a: seq<RarityConfig>, b: seq<RarityConfig>, name: string, before: nat)
    requires a != [] && b != [] && a[0].supply == b[0].supply
    requires PlannedLines(a, name, before) == PlannedLines(b, name, before)
    ensures PlannedLines(a[1..], name, before + a[0].supply) == PlannedLines(b[1..], name, before + a[0].supply)
  {
    PlannedTail(a, name, before);
    PlannedTail(b, name, before);
  }

  lemma {:induction false} RestOfRows(rows: seq<ItemMetadata>, tail: seq<RarityShare>, unused: seq<ItemMetadata>,
          shares: seq<RarityShare>)
    requires rows != [] && tail != [] && OwnShares(tail, shares)
    requires forall i :: 0 <= i < |rows| ==> rows[i] in unused
    ensures forall i :: 0 <= i < |rows[1..]| ==> rows[1..][i] in unused
    ensures OwnShares(tail[1..], shares)
  {
    forall i | 0 <= i < |rows[1..]| ensures rows[1..][i] in unused {
      assert rows[1..][i] == rows[i + 1];
    }
    forall i | 0 <= i < |tail[1..]| ensures FindShare(shares, tail[1..][i].rarity) == Some(tail[1..][i]) {
      assert tail[1..][i] == tail[i + 1];
    }
  }

  lemma {:induction false} RestAgrees(rows: seq<ItemMetadata>, tail: seq<RarityShare>, unused: seq<ItemMetadata>,
          shares: seq<RarityShare>, supply: nat, left: nat, name: string, before: nat, flat: seq<RarityConfig>)
    requires |tail| > 1
    requires SameRest(rows, tail, unused, shares, supply, left, name, before, flat)
    requires rows[0].rarity == tail[0].rarity
    ensures var part := supply * tail[0].value / 100;
            left >= part && flat != []
              && SameRest(rows[1..], tail[1..], unused, shares, supply, left - part, name, before + part, flat[1..])
  {
    FlatStep(rows, shares, supply, left, |shares| - |tail|, flat);
    BatchStep(tail, unused, supply, left);
    RestOfLines(tail, unused, supply, left, name, before, flat);
    RestOfRows(rows, tail, unused, shares);
  }

  lemma {:induction false} RestOfLines(tail: seq<RarityShare>, unused: seq<ItemMetadata>, supply: nat, left: nat,
                                       name: string, before: nat, flat: seq<RarityConfig>)
    requires |tail| > 1 && AllFound(tail, unused) && 100 * left >= supply * TotalShare(tail)
    requires flat != [] && flat[0].supply == supply * tail[0].value / 100
    requires PlannedLines(flat, name, before)
             == PlannedLines(Zip(UrisFor(tail, unused), Split(supply, left, tail)), name, before)
    ensures var part := supply * tail[0].value / 100;
            && left >= part && 100 * (left - part) >= supply * TotalShare(tail[1..]) && AllFound(tail[1..], unused)
            && PlannedLines(flat[1..], name, before + part)
            == PlannedLines(Zip(UrisFor(tail[1..], unused), Split(supply, left - part, tail[1..])), name, before + part)
  {
    BatchStep(tail, unused, supply, left);
    SameTail(flat, Zip(UrisFor(tail, unused), Split(supply, left, tail)), name, before);
  }

  /** The same turn in the batched plan. */
  lemma {:induction false} BatchStep(tail: seq<RarityShare>, unused: seq<ItemMetadata>, supply: nat, left: nat)
    requires |tail| > 1 && AllFound(tail, unused) && 100 * left >= supply * TotalShare(tail)
    ensures var part := supply * tail[0].value / 100;
            var batch := Zip(UrisFor(tail, unused), Split(supply, left, tail));
            && left >= part && 100 * (left - part) >= supply * TotalShare(tail[1..])
            && AllFound(tail[1..], unused)
            && batch[0].supply == part
            && batch[1..] == Zip(UrisFor(tail[1..], unused), Split(supply, left - part, tail[1..]))
  {
    SplitStep(supply, left, tail);
    assert forall i :: 0 <= i < |tail[1..]| ==> tail[1..][i] == tail[i + 1];
  }

  lemma {:induction false} OrderCons(rows: seq<ItemMetadata>, tail: seq<RarityShare>)
    requires rows != [] && tail != [] && rows[0].rarity == tail[0].rarity && TableOrder(rows[1..], tail[1..])
    ensures TableOrder(rows, tail)
  {
    forall i | 0 <= i < |tail| ensures rows[i].rarity == tail[i].rarity {
      if i > 0 {
        assert rows[1..][i - 1].rarity == tail[1..][i - 1].rarity;
      }
    }
  }

  lemma {:induction false} OrderForced(rows: seq<ItemMetadata>, tail: seq<RarityShare>, unused: seq<ItemMetadata>,
          shares: seq<RarityShare>, supply: nat, left: nat, name: string, before: nat, flat: seq<RarityConfig>)
    requires DistinctUris(unused)
    requires EveryShareFills(shares, supply)
    requires SameRest(rows, tail, unused, shares, supply, left, name, before, flat)
    ensures TableOrder(rows, tail)
    decreases |tail|
  {
    HeadForced(rows, tail, unused, shares, supply, left, name, before, flat);
    if |tail| > 1 {
      var part := supply * tail[0].value / 100;
      RestAgrees(rows, tail, unused, shares, supply, left, name, before, flat);
      OrderForced(rows[1..], tail[1..], unused, shares, supply, left - part, name, before + part, flat[1..]);
      OrderCons(rows, tail);
    }
  }

  lemma {:induction false} FirstItem(configs: seq<RarityConfig>, name: string, before: nat)
    requires configs != []
    ensures configs[0].supply > 0 ==>
              && PlannedLines(configs, name, before) != []
              && PlannedLines(configs, name, before)[0] == ConfigLine(configs[0].uri, ItemName(name, before + 1))
  {
    if configs[0].supply > 0 {
      ItemsAt(configs[0].uri, name, before, configs[0].supply, 0);
    }
  }

  lemma {:induction false} HeadIsOwned(tail: seq<RarityShare>, supply: nat, left: nat)
    requires tail != [] && supply * tail[0].value >= 100 && 100 * left >= supply * TotalShare(tail)
    ensures Split(supply, left, tail)[0] >= 1
  {
    assert supply * TotalShare(tail) == supply * tail[0].value + supply * TotalShare(tail[1..]);
  }

  lemma {:induction false} OrderExact(unused: seq<ItemMetadata>, shares: seq<RarityShare>, supply: nat, name: string)
    requires ValidShares(shares) && DistinctRarities(shares) && |unused| == |shares| && DistinctUris(unused)
    requires EveryShareFills(shares, supply)
    requires BatchWith(shares, unused, supply).Some? && FlatConfigs(unused, shares, supply, supply, 0).Some?
    ensures PlannedLines(FlatConfigs(unused, shares, supply, supply, 0).value, name, 0)
            == PlannedLines(BatchWith(shares, unused, supply).value, name, 0)
            <==> TableOrder(unused, shares)
  {
    var flat := FlatConfigs(unused, shares, supply, supply, 0).value;
    if TableOrder(unused, shares) {
      WithRefinesFlat(unused, shares, supply);
    }
    if PlannedLines(flat, name, 0) == PlannedLines(BatchWith(shares, unused, supply).value, name, 0) {
      TableOwnsItsShares(shares);
      OrderForced(unused, shares, unused, shares, supply, supply, name, 0, flat);
    }
  }

  /** For one item file a rarity and a supply of which every rarity's percentage is a whole item (the gate, by
      `MinSupplyExact`), the flat tool repeats the batched plan exactly when the database returns the rows in
      table order. It asks for no order. */
  lemma {:induction false} FlatAgreesOnlyInTableOrder(metadatas: seq<ItemMetadata>, unused: seq<ItemMetadata>,
          shares: seq<RarityShare>, supply: nat, name: string)
    requires OnTable(metadatas, unused, shares) && DistinctUris(unused) && EveryShareFills(shares, supply)
    requires BatchPlan(metadatas, supply).Some? && FlatPlan(metadatas, supply).Some?
    ensures PlannedLines(FlatPlan(metadatas, supply).value, name, 0)
            == PlannedLines(BatchPlan(metadatas, supply).value, name, 0)
            <==> TableOrder(unused, shares)
  {
    PlansUnfold(metadatas, supply, shares);
    TableLength(|unused|, shares);
    OrderExact(unused, shares, supply, name);
  }

  lemma {:induction false} TableLength(numberOfCovers: nat, shares: seq<RarityShare>)
    requires GetRarityShareTable(numberOfCovers) == Some(shares)
    ensures |shares| == numberOfCovers
  {}

  /** Three rows that come back as rare, common, legendary, for the least supply past the gate. */
  lemma {:induction false} FlatOrderMatters(unused: seq<ItemMetadata>, shares: seq<RarityShare>, name: string)
    requires shares == THREE_RARITIES_SHARE
    requires unused == [ItemMetadata("r", false, false, Rare), ItemMetadata("c", false, false, Common),
               ItemMetadata("l", false, false, Legendary)]
    ensures ValidShares(shares)
    ensures FlatConfigs(unused, shares, 20, 20, 0).Some? && BatchWith(shares, unused, 20).Some?
    ensures PlannedLines(FlatConfigs(unused, shares, 20, 20, 0).value, name, 0)
            != PlannedLines(BatchWith(shares, unused, 20).value, name, 0)
  {
    TablesAreValid(3);
    FlatOfThree(unused, shares);
    forall i | 0 <= i < 3 ensures FindMetadata(unused, shares[i].rarity).Some? {
      assert unused[if i == 0 then 1 else if i == 1 then 0 else 2] in unused;
    }
    assert unused[0].rarity != shares[0].rarity;
    OrderExact(unused, shares, 20, name);
  }

  lemma {:induction false} FlatOfThree(unused: seq<ItemMetadata>, shares: seq<RarityShare>)
    requires |unused| == 3 && unused[0].rarity == Rare && unused[1].rarity == Common && unused[2].rarity == Legendary
    requires shares == THREE_RARITIES_SHARE
    ensures FlatConfigs(unused, shares, 20, 20, 0).Some?
  {
    var c, r, l := RarityShare(Common, 70), RarityShare(Rare, 25), RarityShare(Legendary, 5);
    assert shares[1..] == [r, l] && [r, l][1..] == [l];
    assert FindShare([l], Legendary) == Some(l) && FindShare([r, l], Rare) == Some(r);
    assert FindShare(shares, Common) == Some(c) && FindShare(shares, Rare) == Some(r)
           && FindShare(shares, Legendary) == Some(l);
    assert unused[3..] == [] && unused[1..][1..] == unused[2..] && unused[2..][1..] == unused[3..];
    assert FlatConfigs(unused[3..], shares, 20, 1, 3).Some?;
    assert FlatConfigs(unused[2..], shares, 20, 1, 2).Some?;
    assert FlatConfigs(unused[1..], shares, 20, 15, 1).Some?;
  }
}

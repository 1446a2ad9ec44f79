/** Planning which config line of a candy machine receives which item: the batched plan that creation
    uses and the flat plan of the command-line tool. */
module InsertPlan {
  import opened Wrappers
  import opened Text
  import opened Constants
  import opened RaritySplit

  const BATCH := 200
  const INSERT_CHUNK_SIZE := 8

  datatype ItemMetadata = ItemMetadata(uri: string, isUsed: bool, isSigned: bool, rarity: ComicRarity)
  /** The template `${onChainName} #${number}`; `Text` renders it. */
  datatype ItemName = ItemName(onChainName: string, number: nat) {
    function Text(): string { onChainName + " " + ['#'] + Decimal(number) }
  }
  datatype ConfigLine = ConfigLine(uri: string, name: ItemName)
  datatype RarityConfig = RarityConfig(uri: string, supply: nat)
  /** One insert instruction: lines written at consecutive indices from `index`. */
  datatype InsertTx = InsertTx(index: nat, lines: seq<ConfigLine>)
  datatype PlanError = UnsupportedRarities | MissingRarity | InvalidArrayLength | BatchFailed

  /** Two items with the same rendered name carry the same number, even when the names before it differ. */
  lemma {:induction false} SameTextSameNumber(a: ItemName, b: ItemName)
    requires a.Text() == b.Text()
    ensures a == b
  {
    SplitAtLast(a.onChainName + " ", Decimal(a.number), b.onChainName + " ", Decimal(b.number), '#');
    DecimalInjective(a.number, b.number);
    assert (a.onChainName + " ")[..|a.onChainName|] == (b.onChainName + " ")[..|b.onChainName|];
  }

  /** `supply` items of one rarity, numbered on from `before`. */
  function Items(uri: string, onChainName: string, before: nat, supply: nat): (lines: seq<ConfigLine>)
    ensures |lines| == supply
  {
    if supply == 0 then []
    else Items(uri, onChainName, before, supply - 1) + [ConfigLine(uri, ItemName(onChainName, before + supply))]
  }

  lemma {:induction false} ItemsAt(uri: string, onChainName: string, before: nat, supply: nat, k: nat)
    requires k < supply
    ensures Items(uri, onChainName, before, supply)[k] == ConfigLine(uri, ItemName(onChainName, before + k + 1))
  {
    if k < supply - 1 {
      ItemsAt(uri, onChainName, before, supply - 1, k);
    }
  }

  lemma {:induction false} ItemsSplit(uri: string, onChainName: string, before: nat, first: nat, second: nat)
    ensures Items(uri, onChainName, before, first + second)
         == Items(uri, onChainName, before, first) + Items(uri, onChainName, before + first, second)
  {
    if second > 0 {
      ItemsSplit(uri, onChainName, before, first, second - 1);
    }
  }

  /** The whole plan: the rarities one after the other, numbered without a break. */
  function PlannedLines(configs: seq<RarityConfig>, onChainName: string, before: nat): seq<ConfigLine> {
    if configs == [] then []
    else Items(configs[0].uri, onChainName, before, configs[0].supply)
         + PlannedLines(configs[1..], onChainName, before + configs[0].supply)
  }

  function TotalSupply(configs: seq<RarityConfig>): nat {
    if configs == [] then 0 else configs[0].supply + TotalSupply(configs[1..])
  }

  lemma {:induction false} TotalSupplyAppend(a: seq<RarityConfig>, b: seq<RarityConfig>)
    ensures TotalSupply(a + b) == TotalSupply(a) + TotalSupply(b)
  {
    if a == [] {
      assert a + b == b;
    } else {
      TotalSupplyAppend(a[1..], b);
      assert (a + b)[1..] == a[1..] + b;
    }
  }

  lemma {:induction false} HeadAndRest<T>(a: seq<T>, b: seq<T>)
    requires a != []
    ensures a == [a[0]] + a[1..] && a + b == [a[0]] + (a[1..] + b) && (a + b)[1..] == a[1..] + b
  {}

  lemma {:induction false} SplitConcat<T>(p: seq<T>, q: seq<T>, n: nat)
    requires n <= |p|
    ensures (p + q)[n..] == p[n..] + q && (p + q)[..n] == p[..n]
  {}

  lemma {:induction false} PlannedLinesAppend(a: seq<RarityConfig>, b: seq<RarityConfig>, onChainName: string,
          before: nat, after: nat)
    requires after == before + TotalSupply(a)
    ensures PlannedLines(a + b, onChainName, before)
            == PlannedLines(a, onChainName, before) + PlannedLines(b, onChainName, after)
  {
    if a == [] {
      assert a + b == b && PlannedLines(a, onChainName, before) == [];
    } else {
      PlannedLinesAppend(a[1..], b, onChainName, before + a[0].supply, after);
      PlannedConsAppend(a[0], a[1..], b, onChainName, before, after);
      HeadAndRest(a, b);
    }
  }

  lemma {:induction false} PlannedConsAppend(config: RarityConfig, rest: seq<RarityConfig>, b: seq<RarityConfig>,
          onChainName: string, before: nat, after: nat)
    requires var start := before + config.supply;
             PlannedLines(rest + b, onChainName, start)
               == PlannedLines(rest, onChainName, start) + PlannedLines(b, onChainName, after)
    ensures PlannedLines([config] + (rest + b), onChainName, before)
         == PlannedLines([config] + rest, onChainName, before) + PlannedLines(b, onChainName, after)
  {
    var head, start := Items(config.uri, onChainName, before, config.supply), before + config.supply;
    PlannedCons(config, rest, onChainName, before);
    PlannedCons(config, rest + b, onChainName, before);
    Associative(head, PlannedLines(rest, onChainName, start), PlannedLines(b, onChainName, after));
  }

  lemma {:induction false} PlannedCons(config: RarityConfig, rest: seq<RarityConfig>, onChainName: string, before: nat)
    ensures PlannedLines([config] + rest, onChainName, before)
         == Items(config.uri, onChainName, before, config.supply)
            + PlannedLines(rest, onChainName, before + config.supply)
  {
    assert ([config] + rest)[1..] == rest;
  }

  lemma {:induction false} Associative(a: seq<ConfigLine>, b: seq<ConfigLine>, c: seq<ConfigLine>)
    ensures a + (b + c) == (a + b) + c
  {}

  /** Every planned item carries the next number, whatever its rarity. */
  lemma {:induction false} PlannedNames(configs: seq<RarityConfig>, onChainName: string, before: nat)
    ensures var lines := PlannedLines(configs, onChainName, before);
            && |lines| == TotalSupply(configs)
            && forall k :: 0 <= k < |lines| ==> lines[k].name == ItemName(onChainName, before + k + 1)
  {
    if configs != [] {
      PlannedNames(configs[1..], onChainName, before + configs[0].supply);
      forall k | 0 <= k < configs[0].supply
        ensures Items(configs[0].uri, onChainName, before, configs[0].supply)[k].name
                == ItemName(onChainName, before + k + 1)
      {
        ItemsAt(configs[0].uri, onChainName, before, configs[0].supply, k);
      }
    }
  }

  // ---------- writing lines ----------

  /** The transactions write `lines` at `start`, in order, in chunks of one to eight. */
  ghost predicate Tiles(txs: seq<InsertTx>, start: nat, lines: seq<ConfigLine>) {
    if txs == [] then lines == []
    else
      var n := |txs[0].lines|;
      && txs[0].index == start
      && 1 <= n <= INSERT_CHUNK_SIZE
      && n <= |lines| && txs[0].lines == lines[..n]
      && Tiles(txs[1..], start + n, lines[n..])
  }

  lemma {:induction false} TilesAppend(a: seq<InsertTx>, b: seq<InsertTx>, start: nat, p: seq<ConfigLine>,
          q: seq<ConfigLine>)
    requires Tiles(a, start, p) && Tiles(b, start + |p|, q)
    ensures Tiles(a + b, start, p + q)
  {
    if a == [] {
      assert a + b == b && p + q == q;
    } else {
      var n := |a[0].lines|;
      HeadAndRest(a, b);
      SplitConcat(p, q, n);
      TilesAppend(a[1..], b, start + n, p[n..], q);
    }
  }

  function LineAt(start: nat, lines: seq<ConfigLine>, i: nat): ConfigLine
    requires start <= i < start + |lines|
  {
    lines[i - start]
  }

  function LineMap(start: nat, lines: seq<ConfigLine>): map<nat, ConfigLine> {
    map i: nat | start <= i < start + |lines| :: LineAt(start, lines, i)
  }

  /** The candy machine's config lines after a run of writes. */
  function Apply(account: map<nat, ConfigLine>, txs: seq<InsertTx>): map<nat, ConfigLine>
    decreases |txs|
  {
    if txs == [] then account else Apply(account + LineMap(txs[0].index, txs[0].lines), txs[1..])
  }

  /** How many of the transactions write index `i`. */
  function WriteCount(txs: seq<InsertTx>, i: nat): nat {
    if txs == [] then 0
    else (if txs[0].index <= i < txs[0].index + |txs[0].lines| then 1 else 0) + WriteCount(txs[1..], i)
  }

  lemma {:induction false} LineMapSplit(account: map<nat, ConfigLine>, start: nat, lines: seq<ConfigLine>, n: nat)
    requires n <= |lines|
    ensures account + LineMap(start, lines) == account + LineMap(start, lines[..n]) + LineMap(start + n, lines[n..])
  {}

  /** Tiling transactions fill exactly their range. */
  lemma {:induction false} TilesFill(txs: seq<InsertTx>, start: nat, lines: seq<ConfigLine>,
          account: map<nat, ConfigLine>)
    requires Tiles(txs, start, lines)
    ensures Apply(account, txs) == account + LineMap(start, lines)
    decreases |txs|
  {
    if txs == [] {
      assert account + LineMap(start, lines) == account;
    } else {
      var n := |txs[0].lines|;
      TilesFill(txs[1..], start + n, lines[n..], account + LineMap(start, lines[..n]));
      LineMapSplit(account, start, lines, n);
    }
  }

  /** ... and write each index of it once. */
  lemma {:induction false} TilesWriteOnce(txs: seq<InsertTx>, start: nat, lines: seq<ConfigLine>, i: nat)
    requires Tiles(txs, start, lines)
    ensures WriteCount(txs, i) == if start <= i < start + |lines| then 1 else 0
  {
    if txs != [] {
      var n := |txs[0].lines|;
      TilesWriteOnce(txs[1..], start + n, lines[n..], i);
    }
  }

  function ChunksFor(lines: nat): nat {
    (lines + INSERT_CHUNK_SIZE - 1) / INSERT_CHUNK_SIZE
  }

  /** umi's `chunk`: slices of `size`, the last one shorter. */
  function Chunks(items: seq<ConfigLine>, size: nat): seq<seq<ConfigLine>>
    requires size > 0
  {
    if items == [] then []
    else if |items| <= size then [items]
    else [items[..size]] + Chunks(items[size..], size)
  }

  lemma {:induction false} ChunkCount(items: seq<ConfigLine>, size: nat)
    requires size == INSERT_CHUNK_SIZE
    ensures |Chunks(items, size)| == (|items| + size - 1) / size
  {
    if |items| > size {
      ChunkCount(items[size..], size);
    }
  }

  /** The loop over `itemChunks`: one transaction a chunk, at a running index. */
  method ChunkTransactions(items: seq<ConfigLine>, index: nat) returns (txs: seq<InsertTx>)
    ensures Tiles(txs, index, items)
    ensures |txs| == ChunksFor(|items|) == (|items| + 7) / 8
  {
    txs := [];
    var itemChunks := Chunks(items, INSERT_CHUNK_SIZE);
    ChunkCount(items, INSERT_CHUNK_SIZE);
    var transitionIndex := index;
    ghost var done: nat := 0;
    for c := 0 to |itemChunks|
      invariant done <= |items| && transitionIndex == index + done && |txs| == c
      invariant Chunks(items[done..], INSERT_CHUNK_SIZE) == itemChunks[c..]
      invariant Tiles(txs, index, items[..done])
    {
      var itemsChunk := itemChunks[c];
      FirstChunk(items, done, itemChunks[c..]);
      assert itemChunks[c..][1..] == itemChunks[c + 1..];
      TilesSnoc(txs, index, items, done, itemsChunk);
      txs := txs + [InsertTx(transitionIndex, itemsChunk)];
      transitionIndex := transitionIndex + |itemsChunk|;
      done := done + |itemsChunk|;
    }
    assert items[done..] == [] && items[..done] == items;
  }

  lemma {:induction false} FirstChunk(items: seq<ConfigLine>, done: nat, chunks: seq<seq<ConfigLine>>)
    requires done <= |items| && chunks == Chunks(items[done..], INSERT_CHUNK_SIZE) && chunks != []
    ensures var n := |chunks[0]|;
            && 1 <= n <= INSERT_CHUNK_SIZE && done + n <= |items| && chunks[0] == items[done..done + n]
            && Chunks(items[done + n..], INSERT_CHUNK_SIZE) == chunks[1..]
  {
    var rest := items[done..];
    assert rest[|chunks[0]|..] == items[done + |chunks[0]|..];
  }

  /** One more chunk on a tiling. */
  lemma {:induction false} TilesSnoc(txs: seq<InsertTx>, index: nat, items: seq<ConfigLine>, done: nat,
          next: seq<ConfigLine>)
    requires done + |next| <= |items| && next == items[done..done + |next|]
    requires 1 <= |next| <= INSERT_CHUNK_SIZE
    requires Tiles(txs, index, items[..done])
    ensures Tiles(txs + [InsertTx(index + done, next)], index, items[..done + |next|])
  {
    var tx := InsertTx(index + done, next);
    assert next[|next|..] == [] && next[..|next|] == next && [tx][1..] == [];
    assert Tiles([tx], index + done, next);
    TilesAppend(txs, [tx], index, items[..done], next);
    assert items[..done] + next == items[..done + |next|];
  }

  method InsertCoreItems(prefixIndex: nat, index: nat, uri: string, onChainName: string, supply: nat)
    returns (txs: seq<InsertTx>)
    ensures Tiles(txs, index, Items(uri, onChainName, prefixIndex + index, supply))
    ensures |txs| == ChunksFor(supply) == (supply + 7) / 8
  {
    var items: seq<ConfigLine> := [];
    var nameIndex := prefixIndex + index;
    for k := 0 to supply
      invariant nameIndex == prefixIndex + index + k
      invariant items == Items(uri, onChainName, prefixIndex + index, k)
    {
      nameIndex := nameIndex + 1;
      items := items + [ConfigLine(uri, ItemName(onChainName, nameIndex))];
    }
    txs := ChunkTransactions(items, index);
  }

  // ---------- the batched plan ----------

  function UnusedUnsigned(metadatas: seq<ItemMetadata>): seq<ItemMetadata> {
    if metadatas == [] then []
    else (if !metadatas[0].isUsed && !metadatas[0].isSigned then [metadatas[0]] else [])
          + UnusedUnsigned(metadatas[1..])
  }

  function FindMetadata(metadatas: seq<ItemMetadata>, rarity: ComicRarity): (r: Option<ItemMetadata>)
    ensures r.Some? ==> r.value in metadatas && r.value.rarity == rarity
    ensures r.None? ==> forall m :: m in metadatas ==> m.rarity != rarity
  {
    if metadatas == [] then None
    else if metadatas[0].rarity == rarity then Some(metadatas[0])
    else FindMetadata(metadatas[1..], rarity)
  }

  ghost predicate AllFound(shares: seq<RarityShare>, metadatas: seq<ItemMetadata>) {
    forall i :: 0 <= i < |shares| ==> FindMetadata(metadatas, shares[i].rarity).Some?
  }

  /** The item file of each rarity of the table, in table order. */
  ghost function UrisFor(shares: seq<RarityShare>, metadatas: seq<ItemMetadata>): (uris: seq<string>)
    requires AllFound(shares, metadatas)
    ensures |uris| == |shares|
  {
    if shares == [] then [] else [FindMetadata(metadatas, shares[0].rarity).value.uri] + UrisFor(shares[1..], metadatas)
  }

  function Zip(uris: seq<string>, parts: seq<nat>): (configs: seq<RarityConfig>)
    requires |uris| == |parts|
    ensures |configs| == |uris|
  {
    if uris == [] then [] else [RarityConfig(uris[0], parts[0])] + Zip(uris[1..], parts[1..])
  }

  /** The batched plan for a given table; None where a rarity has no item file and the source throws. */
  ghost function BatchWith(shares: seq<RarityShare>, unused: seq<ItemMetadata>, supply: nat): Option<seq<RarityConfig>>
    requires ValidShares(shares)
  {
    if AllFound(shares, unused) then Some(Zip(UrisFor(shares, unused), Split(supply, supply, shares))) else None
  }

  /** The batched plan as a function of the metadata rows and the supply; None where the source throws. */
  ghost function BatchPlan(metadatas: seq<ItemMetadata>, supply: nat): Option<seq<RarityConfig>> {
    var unused := UnusedUnsigned(metadatas);
    var table := GetRarityShareTable(|unused|);
    if table.None? then None
    else
      TablesAreValid(|unused|);
      BatchWith(table.value, unused, supply)
  }

  function TxCount(configs: seq<RarityConfig>): nat {
    if configs == [] then 0
    else ChunksFor(configs[0].supply) + TxCount(configs[1..])
  }

  lemma {:induction false} TxCountAppend(a: seq<RarityConfig>, b: seq<RarityConfig>)
    ensures TxCount(a + b) == TxCount(a) + TxCount(b)
  {
    if a == [] {
      assert a + b == b;
    } else {
      TxCountAppend(a[1..], b);
      assert (a + b)[1..] == a[1..] + b;
    }
  }

  lemma {:induction false} TotalSupplyOfZip(uris: seq<string>, parts: seq<nat>)
    requires |uris| == |parts|
    ensures TotalSupply(Zip(uris, parts)) == Sum(parts)
  {
    if uris != [] {
      TotalSupplyOfZip(uris[1..], parts[1..]);
    }
  }

  /** A plan that exists hands out the whole supply. */
  lemma {:induction false} BatchPlanUsesSupply(metadatas: seq<ItemMetadata>, supply: nat)
    requires BatchPlan(metadatas, supply).Some?
    ensures TotalSupply(BatchPlan(metadatas, supply).value) == supply
  {
    var unused := UnusedUnsigned(metadatas);
    TablesAreValid(|unused|);
    WithUsesSupply(GetRarityShareTable(|unused|).value, unused, supply);
  }

  lemma {:induction false} WithUsesSupply(shares: seq<RarityShare>, unused: seq<ItemMetadata>, supply: nat)
    requires ValidShares(shares) && BatchWith(shares, unused, supply).Some?
    ensures TotalSupply(BatchWith(shares, unused, supply).value) == supply
  {
    TotalSupplyOfZip(UrisFor(shares, unused), Split(supply, supply, shares));
  }

  lemma {:induction false} ConfigAt(shares: seq<RarityShare>, parts: seq<nat>, metadatas: seq<ItemMetadata>, i: nat)
    requires i < |shares| == |parts| && AllFound(shares, metadatas)
    ensures Zip(UrisFor(shares, metadatas), parts)[i]
         == RarityConfig(FindMetadata(metadatas, shares[i].rarity).value.uri, parts[i])
  {
    if i > 0 {
      ConfigAt(shares[1..], parts[1..], metadatas, i - 1);
    }
  }

  method RarityConfigs(shares: seq<RarityShare>, parts: seq<nat>, metadatas: seq<ItemMetadata>)
    returns (r: Result<seq<RarityConfig>, PlanError>)
    requires |shares| == |parts|
    ensures r.Success? <==> AllFound(shares, metadatas)
    ensures r.Failure? ==> r.error == MissingRarity
    ensures r.Success? ==> r.value == Zip(UrisFor(shares, metadatas), parts)
  {
    var configs: seq<RarityConfig> := [];
    for i := 0 to |shares|
      invariant |configs| == i
      invariant forall k :: 0 <= k < i ==>
                  && FindMetadata(metadatas, shares[k].rarity).Some?
                  && configs[k] == RarityConfig(FindMetadata(metadatas, shares[k].rarity).value.uri, parts[k])
    {
      var metadata := FindMetadata(metadatas, shares[i].rarity);
      if metadata.None? {
        return Failure(MissingRarity);
      }
      configs := configs + [RarityConfig(metadata.value.uri, parts[i])];
    }
    forall i | 0 <= i < |shares| ensures configs[i] == Zip(UrisFor(shares, metadatas), parts)[i] {
      ConfigAt(shares, parts, metadatas, i);
    }
    r := Success(configs);
  }

  // ---------- how far an insertion gets ----------

  /** The lines sent, how many more batches can still be built, and whether building one has thrown. */
  datatype Progress = Progress(lines: nat, budget: Option<nat>, threw: bool)

  function Spend(budget: Option<nat>): Option<nat> {
    match budget
    case None => None
    case Some(n) => Some(if n == 0 then 0 else n - 1)
  }

  /** Every batch is sent before the next one is built, and building one may throw: `budget` says how many
      batches are built before that, None that none throws. */
  function SendRarity(supply: nat, budget: Option<nat>): (p: Progress)
    ensures p.lines <= supply && (p.threw <==> p.lines < supply)
  {
    if supply == 0 then Progress(0, budget, false)
    else if budget == Some(0) then Progress(0, budget, true)
    else
      var batch := if BATCH < supply then BATCH else supply;
      var rest := SendRarity(supply - batch, Spend(budget));
      rest.(lines := batch + rest.lines)
  }

  function SendConfigs(configs: seq<RarityConfig>, budget: Option<nat>): (p: Progress)
    ensures p.lines <= TotalSupply(configs) && (p.threw <==> p.lines < TotalSupply(configs))
  {
    if configs == [] then Progress(0, budget, false)
    else
      var first := SendRarity(configs[0].supply, budget);
      if first.threw then first
      else
        var rest := SendConfigs(configs[1..], first.budget);
        rest.(lines := first.lines + rest.lines)
  }

  function Batches(supply: nat): nat {
    (supply + BATCH - 1) / BATCH
  }

  function BatchCount(configs: seq<RarityConfig>): nat {
    if configs == [] then 0 else Batches(configs[0].supply) + BatchCount(configs[1..])
  }

  /** Of one rarity 200 items a batch are sent, as long as the batches last. */
  lemma {:induction false} SentByBudget(supply: nat, budget: Option<nat>)
    ensures SendRarity(supply, budget).lines
         == if budget.None? || supply <= 200 * budget.value then supply else 200 * budget.value
  {
    if supply > 0 && budget != Some(0) {
      SentByBudget(supply - (if BATCH < supply then BATCH else supply), Spend(budget));
    }
  }

  lemma {:induction false} RarityThrowsExactly(supply: nat, budget: Option<nat>)
    ensures var p := SendRarity(supply, budget);
            && (p.threw <==> budget.Some? && budget.value < Batches(supply))
            && (!p.threw ==> p.budget == if budget.Some? then Some(budget.value - Batches(supply)) else None)
  {
    if supply > 0 && budget != Some(0) {
      RarityThrowsExactly(supply - (if BATCH < supply then BATCH else supply), Spend(budget));
    }
  }

  /** An insertion throws exactly when fewer batches can be built than the plan has. */
  lemma {:induction false} ThrowsExactly(configs: seq<RarityConfig>, budget: Option<nat>)
    ensures SendConfigs(configs, budget).threw <==> budget.Some? && budget.value < BatchCount(configs)
  {
    if configs != [] {
      RarityThrowsExactly(configs[0].supply, budget);
      ThrowsExactly(configs[1..], SendRarity(configs[0].supply, budget).budget);
    }
  }

  /** Where an insertion that throws stops: all of the rarities before the one it throws in, and 200 items for each
      batch of that one that was still built. */
  lemma {:induction false} StopsAt(configs: seq<RarityConfig>, c: nat, built: nat)
    requires c < |configs| && BatchCount(configs[..c]) <= built < BatchCount(configs[..c + 1])
    ensures SendConfigs(configs, Some(built)).lines
         == TotalSupply(configs[..c]) + 200 * (built - BatchCount(configs[..c]))
  {
    RarityThrowsExactly(configs[0].supply, Some(built));
    SentByBudget(configs[0].supply, Some(built));
    assert configs[..c + 1][1..] == configs[1..][..c];
    if c == 0 {
      assert configs[1..][..0] == [];
    } else {
      assert configs[..c][1..] == configs[1..][..c - 1];
      StopsAt(configs[1..], c - 1, built - Batches(configs[0].supply));
    }
  }

  /** Whole batches cost no extra transaction, because 200 is a multiple of 8. */
  lemma {:induction false} BatchCeiling(done: nat, batch: nat, batches: nat)
    requires done == BATCH * batches
    ensures ChunksFor(done) + ChunksFor(batch) == ChunksFor(done + batch)
  {
    WholeChunks(25 * batches, batch);
  }

  lemma {:induction false} WholeChunks(chunks: nat, more: nat)
    ensures ChunksFor(INSERT_CHUNK_SIZE * chunks) == chunks
    ensures ChunksFor(INSERT_CHUNK_SIZE * chunks + more) == chunks + ChunksFor(more)
  {}

  /** The transactions for `done` items of one rarity. */
  ghost predicate SentRarity(txs: seq<InsertTx>, start: nat, uri: string, name: string, before: nat, done: nat) {
    Tiles(txs, start, Items(uri, name, before, done)) && |txs| == ChunksFor(done)
  }

  /** One more batch of a rarity. */
  lemma {:induction false} SentBatch(txs: seq<InsertTx>, more: seq<InsertTx>, start: nat, uri: string, name: string,
          before: nat, done: nat, batch: nat, batches: nat)
    requires SentRarity(txs, start, uri, name, before, done) && done == BATCH * batches
    requires SentRarity(more, start + done, uri, name, before + done, batch)
    ensures SentRarity(txs + more, start, uri, name, before, done + batch)
  {
    ItemsSplit(uri, name, before, done, batch);
    TilesAppend(txs, more, start, Items(uri, name, before, done), Items(uri, name, before + done, batch));
    BatchCeiling(done, batch, batches);
  }

  function Ahead(p: Progress, lines: nat): Progress {
    p.(lines := p.lines + lines)
  }

  lemma {:induction false} SendBatch(supply: nat, budget: Option<nat>, batch: nat, done: nat)
    requires supply > 0 && budget != Some(0) && batch == (if BATCH < supply then BATCH else supply)
    ensures Ahead(SendRarity(supply, budget), done) == Ahead(SendRarity(supply - batch, Spend(budget)), done + batch)
  {}

  /** Where the loop of one rarity stands: `done` items are sent, in whole batches until the last. */
  ghost predicate RarityLoop(config: RarityConfig, name: string, first: nat, start: nat, budget: Option<nat>,
          txs: seq<InsertTx>, left: Option<nat>, done: nat, batches: nat)
  {
    && done <= config.supply
    && (done == config.supply || done == BATCH * batches)
    && SendRarity(config.supply, budget) == Ahead(SendRarity(config.supply - done, left), done)
    && SentRarity(txs, start, config.uri, name, first, done)
  }

  lemma {:induction false} RarityLoopStart(config: RarityConfig, name: string, first: nat, start: nat,
          budget: Option<nat>)
    ensures RarityLoop(config, name, first, start, budget, [], budget, 0, 0)
  {}

  lemma {:induction false} RarityLoopEnd(config: RarityConfig, name: string, first: nat, start: nat,
          budget: Option<nat>, txs: seq<InsertTx>, left: Option<nat>, done: nat, batches: nat)
    requires RarityLoop(config, name, first, start, budget, txs, left, done, batches)
    requires done == config.supply || left == Some(0)
    ensures SendRarity(config.supply, budget) == Progress(done, left, done < config.supply)
    ensures SentRarity(txs, start, config.uri, name, first, done)
  {}

  lemma {:induction false} RarityLoopStep(config: RarityConfig, name: string, first: nat, start: nat,
          budget: Option<nat>, txs: seq<InsertTx>, left: Option<nat>, done: nat, batches: nat,
          more: seq<InsertTx>, batch: nat)
    requires RarityLoop(config, name, first, start, budget, txs, left, done, batches)
    requires done < config.supply && left != Some(0)
    requires batch == if BATCH < config.supply - done then BATCH else config.supply - done
    requires SentRarity(more, start + done, config.uri, name, first + done, batch)
    ensures RarityLoop(config, name, first, start, budget, txs + more, Spend(left), done + batch, batches + 1)
  {
    SentBatch(txs, more, start, config.uri, name, first, done, batch, batches);
    SendBatch(config.supply - done, left, batch, done);
  }

  /** One rarity's `while (config.supply)`: batches of 200, each cut into chunks of 8 and sent. */
  method InsertRarity(config: RarityConfig, onChainName: string, currentSupply: nat, start: nat, budget: Option<nat>)
    returns (txs: seq<InsertTx>, left: Option<nat>, threw: bool)
    ensures var p := SendRarity(config.supply, budget);
            && left == p.budget && threw == p.threw
            && SentRarity(txs, start, config.uri, onChainName, currentSupply + start, p.lines)
  {
    txs, left := [], budget;
    var index: nat, configSupply: nat := start, config.supply;
    ghost var first, done, batches := currentSupply + start, 0, 0;
    RarityLoopStart(config, onChainName, first, start, budget);
    while configSupply > 0
      invariant configSupply + done == config.supply && index == start + done
      invariant RarityLoop(config, onChainName, first, start, budget, txs, left, done, batches)
    {
      if left == Some(0) {
        RarityLoopEnd(config, onChainName, first, start, budget, txs, left, done, batches);
        return txs, left, true;
      }
      var supply := if BATCH < configSupply then BATCH else configSupply;
      var inserted := InsertCoreItems(currentSupply, index, config.uri, onChainName, supply);
      assert currentSupply + index == first + done;
      RarityLoopStep(config, onChainName, first, start, budget, txs, left, done, batches, inserted, supply);
      txs, left := txs + inserted, Spend(left);
      done, batches := done + supply, batches + 1;
      configSupply := configSupply - supply;
      index := index + supply;
    }
    RarityLoopEnd(config, onChainName, first, start, budget, txs, left, done, batches);
    threw := false;
  }

  /** One more rarity in the plan. */
  lemma {:induction false} ExtendPlan(configs: seq<RarityConfig>, c: nat, onChainName: string, currentSupply: nat)
    requires c < |configs|
    ensures TotalSupply(configs[..c + 1]) == TotalSupply(configs[..c]) + configs[c].supply
    ensures TxCount(configs[..c + 1])
         == TxCount(configs[..c]) + ChunksFor(configs[c].supply)
    ensures var start := TotalSupply(configs[..c]);
            && |PlannedLines(configs[..c], onChainName, currentSupply)| == start
            && PlannedLines(configs[..c + 1], onChainName, currentSupply)
            == PlannedLines(configs[..c], onChainName, currentSupply)
               + Items(configs[c].uri, onChainName, currentSupply + start, configs[c].supply)
  {
    var config := configs[c];
    assert configs[..c + 1] == configs[..c] + [config];
    TotalSupplyAppend(configs[..c], [config]);
    TxCountAppend(configs[..c], [config]);
    PlannedNames(configs[..c], onChainName, currentSupply);
    PlannedLinesAppend(configs[..c], [config], onChainName, currentSupply, currentSupply + TotalSupply(configs[..c]));
    assert [config] + [] == [config];
    PlannedCons(config, [], onChainName, currentSupply + TotalSupply(configs[..c]));
  }

  /** What is sent of the plan when rarity `c` stops after `part` of its lines. */
  lemma {:induction false} PlanPrefix(configs: seq<RarityConfig>, c: nat, part: nat, onChainName: string,
          currentSupply: nat)
    requires c < |configs| && part <= configs[c].supply
    ensures var before := PlannedLines(configs[..c], onChainName, currentSupply);
            && |before| == TotalSupply(configs[..c])
            && |before| + part <= |PlannedLines(configs, onChainName, currentSupply)|
            && before + Items(configs[c].uri, onChainName, currentSupply + |before|, part)
            == PlannedLines(configs, onChainName, currentSupply)[..|before| + part]
  {
    var before, whole := PlannedLines(configs[..c], onChainName, currentSupply),
                           PlannedLines(configs, onChainName, currentSupply);
    var own := Items(configs[c].uri, onChainName, currentSupply + |before|, configs[c].supply);
    ExtendPlan(configs, c, onChainName, currentSupply);
    assert configs[..c + 1] + configs[c + 1..] == configs;
    var after := currentSupply + TotalSupply(configs[..c + 1]);
    PlannedLinesAppend(configs[..c + 1], configs[c + 1..], onChainName, currentSupply, after);
    ItemsSplit(configs[c].uri, onChainName, currentSupply + |before|, part, configs[c].supply - part);
    PrefixOfSum(before, own, part, PlannedLines(configs[c + 1..], onChainName, after));
    assert own[..part] == Items(configs[c].uri, onChainName, currentSupply + |before|, part);
  }

  lemma {:induction false} PrefixOfSum(a: seq<ConfigLine>, b: seq<ConfigLine>, n: nat, c: seq<ConfigLine>)
    requires n <= |b|
    ensures a + b[..n] == (a + b + c)[..|a| + n]
  {}

  /** The transactions of one more rarity, or of the part of it that was sent. */
  lemma {:induction false} SentConfig(txs: seq<InsertTx>, more: seq<InsertTx>, configs: seq<RarityConfig>, c: nat,
          part: nat, name: string, before: nat, index: nat)
    requires c < |configs| && part <= configs[c].supply && index == TotalSupply(configs[..c])
    requires |PlannedLines(configs, name, before)| == TotalSupply(configs)
             && index + configs[c].supply <= TotalSupply(configs)
    requires Tiles(txs, 0, PlannedLines(configs, name, before)[..index])
    requires Tiles(more, index, Items(configs[c].uri, name, before + index, part))
    ensures Tiles(txs + more, 0, PlannedLines(configs, name, before)[..index + part])
  {
    var lines := PlannedLines(configs, name, before);
    PlanPrefix(configs, c, 0, name, before);
    PlanPrefix(configs, c, part, name, before);
    var own := Items(configs[c].uri, name, before + index, part);
    assert lines[..index] == PlannedLines(configs[..c], name, before);
    TilesAppend(txs, more, 0, lines[..index], own);
  }

  lemma {:induction false} SupplyUpTo(configs: seq<RarityConfig>, c: nat)
    requires c < |configs|
    ensures TotalSupply(configs[..c + 1]) == TotalSupply(configs[..c]) + configs[c].supply <= TotalSupply(configs)
    ensures TxCount(configs[..c + 1]) == TxCount(configs[..c]) + ChunksFor(configs[c].supply)
  {
    assert configs[..c + 1] == configs[..c] + [configs[c]] && configs[..c + 1] + configs[c + 1..] == configs;
    TotalSupplyAppend(configs[..c], [configs[c]]);
    TotalSupplyAppend(configs[..c + 1], configs[c + 1..]);
    TxCountAppend(configs[..c], [configs[c]]);
  }

  lemma {:induction false} SendNext(configs: seq<RarityConfig>, c: nat, left: Option<nat>, index: nat)
    requires c < |configs|
    ensures var p := SendRarity(configs[c].supply, left);
            Ahead(SendConfigs(configs[c..], left), index)
            == if p.threw then Ahead(p, index)
               else Ahead(SendConfigs(configs[c + 1..], p.budget), index + configs[c].supply)
  {
    assert configs[c..][1..] == configs[c + 1..];
  }

  /** Where the loop over the rarities stands. */
  ghost predicate ConfigsLoop(configs: seq<RarityConfig>, name: string, before: nat, budget: Option<nat>,
          txs: seq<InsertTx>, left: Option<nat>, c: nat, index: nat)
  {
    && c <= |configs| && index == TotalSupply(configs[..c]) <= TotalSupply(configs)
    && |PlannedLines(configs, name, before)| == TotalSupply(configs)
    && SendConfigs(configs, budget) == Ahead(SendConfigs(configs[c..], left), index)
    && Tiles(txs, 0, PlannedLines(configs, name, before)[..index])
    && |txs| == TxCount(configs[..c])
  }

  /** The transactions tile the plan as far as the budget goes. */
  ghost predicate Sent(configs: seq<RarityConfig>, name: string, before: nat, budget: Option<nat>, txs: seq<InsertTx>) {
    && |PlannedLines(configs, name, before)| == TotalSupply(configs)
    && Tiles(txs, 0, PlannedLines(configs, name, before)[..SendConfigs(configs, budget).lines])
  }

  lemma {:induction false} ConfigsLoopStart(configs: seq<RarityConfig>, name: string, before: nat, budget: Option<nat>)
    ensures ConfigsLoop(configs, name, before, budget, [], budget, 0, 0)
  {
    PlannedNames(configs, name, before);
    assert configs[..0] == [] && configs[0..] == configs;
  }

  lemma {:induction false} ConfigsLoopEnd(configs: seq<RarityConfig>, name: string, before: nat, budget: Option<nat>,
          txs: seq<InsertTx>, left: Option<nat>, index: nat)
    requires ConfigsLoop(configs, name, before, budget, txs, left, |configs|, index)
    ensures Sent(configs, name, before, budget, txs) && !SendConfigs(configs, budget).threw
    ensures |txs| == TxCount(configs)
  {
    assert configs[..|configs|] == configs && configs[|configs|..] == [];
  }

  lemma {:induction false} ConfigsLoopTiles(configs: seq<RarityConfig>, name: string, before: nat, budget: Option<nat>,
          txs: seq<InsertTx>, left: Option<nat>, c: nat, index: nat, more: seq<InsertTx>, lines: nat)
    requires ConfigsLoop(configs, name, before, budget, txs, left, c, index) && c < |configs|
    requires lines <= configs[c].supply && SentRarity(more, index, configs[c].uri, name, before + index, lines)
    ensures TotalSupply(configs[..c + 1]) == index + configs[c].supply <= TotalSupply(configs)
    ensures TxCount(configs[..c + 1]) == |txs| + ChunksFor(configs[c].supply)
    ensures |PlannedLines(configs, name, before)| == TotalSupply(configs)
    ensures Tiles(txs + more, 0, PlannedLines(configs, name, before)[..index + lines])
  {
    SupplyUpTo(configs, c);
    SentConfig(txs, more, configs, c, lines, name, before, index);
  }

  /** Building a batch of rarity `c` throws: what was sent is where the plan stops. */
  lemma {:induction false} ConfigsLoopStop(configs: seq<RarityConfig>, name: string, before: nat, budget: Option<nat>,
          txs: seq<InsertTx>, left: Option<nat>, c: nat, index: nat, more: seq<InsertTx>, p: Progress)
    requires ConfigsLoop(configs, name, before, budget, txs, left, c, index) && c < |configs|
    requires p == SendRarity(configs[c].supply, left) && p.threw
    requires SentRarity(more, index, configs[c].uri, name, before + index, p.lines)
    ensures Sent(configs, name, before, budget, txs + more) && SendConfigs(configs, budget).threw
  {
    SendNext(configs, c, left, index);
    ConfigsLoopTiles(configs, name, before, budget, txs, left, c, index, more, p.lines);
  }

  /** Rarity `c` is sent completely. */
  lemma {:induction false} ConfigsLoopStep(configs: seq<RarityConfig>, name: string, before: nat, budget: Option<nat>,
          txs: seq<InsertTx>, left: Option<nat>, c: nat, index: nat, more: seq<InsertTx>, p: Progress)
    requires ConfigsLoop(configs, name, before, budget, txs, left, c, index) && c < |configs|
    requires p == SendRarity(configs[c].supply, left) && !p.threw
    requires SentRarity(more, index, configs[c].uri, name, before + index, p.lines)
    ensures ConfigsLoop(configs, name, before, budget, txs + more, p.budget, c + 1, index + configs[c].supply)
  {
    SendsAll(configs, budget, left, c, index, p);
    ConfigsLoopTiles(configs, name, before, budget, txs, left, c, index, more, p.lines);
  }

  lemma {:induction false} SendsAll(configs: seq<RarityConfig>, budget: Option<nat>, left: Option<nat>, c: nat,
          index: nat, p: Progress)
    requires c < |configs| && SendConfigs(configs, budget) == Ahead(SendConfigs(configs[c..], left), index)
    requires p == SendRarity(configs[c].supply, left) && !p.threw
    ensures p.lines == configs[c].supply
    ensures SendConfigs(configs, budget)
            == Ahead(SendConfigs(configs[c + 1..], p.budget), index + configs[c].supply)
  {
    SendNext(configs, c, left, index);
  }

  method InsertConfigs(configs: seq<RarityConfig>, onChainName: string, currentSupply: nat, budget: Option<nat>)
    returns (txs: seq<InsertTx>, threw: bool)
    ensures threw == SendConfigs(configs, budget).threw
    ensures Sent(configs, onChainName, currentSupply, budget, txs)
    ensures !threw ==> |txs| == TxCount(configs)
  {
    txs := [];
    var index: nat, left: Option<nat> := 0, budget;
    ConfigsLoopStart(configs, onChainName, currentSupply, budget);
    for c := 0 to |configs|
      invariant ConfigsLoop(configs, onChainName, currentSupply, budget, txs, left, c, index)
    {
      var inserted, rest, stopped := InsertRarity(configs[c], onChainName, currentSupply, index, left);
      ghost var p := SendRarity(configs[c].supply, left);
      if stopped {
        ConfigsLoopStop(configs, onChainName, currentSupply, budget, txs, left, c, index, inserted, p);
        return txs + inserted, true;
      }
      ConfigsLoopStep(configs, onChainName, currentSupply, budget, txs, left, c, index, inserted, p);
      txs, left := txs + inserted, rest;
      index := index + configs[c].supply;
    }
    ConfigsLoopEnd(configs, onChainName, currentSupply, budget, txs, left, index);
    threw := false;
  }

  // ---------- the plan in terms of the given rows ----------

  /** Where the rows before `upTo` that are neither used nor signed stand. */
  ghost function PlainRows(rows: seq<ItemMetadata>, upTo: nat): set<nat>
    requires upTo <= |rows|
  {
    set p: nat | p < upTo && !rows[p].isUsed && !rows[p].isSigned
  }

  lemma {:induction false} OneMoreRow(rows: seq<ItemMetadata>, upTo: nat)
    requires upTo < |rows|
    ensures |PlainRows(rows, upTo + 1)|
         == |PlainRows(rows, upTo)| + if !rows[upTo].isUsed && !rows[upTo].isSigned then 1 else 0
  {
    assert upTo !in PlainRows(rows, upTo);
    assert PlainRows(rows, upTo + 1)
        == PlainRows(rows, upTo) + if !rows[upTo].isUsed && !rows[upTo].isSigned then {upTo} else {};
  }

  lemma {:induction false} UnusedAppend(rows: seq<ItemMetadata>, last: ItemMetadata)
    ensures UnusedUnsigned(rows + [last])
         == UnusedUnsigned(rows) + if !last.isUsed && !last.isSigned then [last] else []
  {
    if rows == [] {
      assert [] + [last] == [last] && [last][1..] == [];
    } else {
      HeadAndRest(rows, [last]);
      UnusedAppend(rows[1..], last);
    }
  }

  lemma {:induction false} UnusedUpTo(rows: seq<ItemMetadata>, upTo: nat)
    requires upTo <= |rows|
    ensures |UnusedUnsigned(rows[..upTo])| == |PlainRows(rows, upTo)|
    ensures forall p: nat | p < upTo && !rows[p].isUsed && !rows[p].isSigned ::
              && |PlainRows(rows, p)| < |PlainRows(rows, upTo)|
              && UnusedUnsigned(rows[..upTo])[|PlainRows(rows, p)|] == rows[p]
  {
    if upTo == 0 {
      assert PlainRows(rows, 0) == {} && UnusedUnsigned(rows[..0]) == [];
    } else {
      assert rows[..upTo] == rows[..upTo - 1] + [rows[upTo - 1]];
      UnusedUpTo(rows, upTo - 1);
      UnusedAppend(rows[..upTo - 1], rows[upTo - 1]);
      OneMoreRow(rows, upTo - 1);
    }
  }

  /** The filter keeps exactly the rows that are neither used nor signed, in their order. */
  lemma {:induction false} FilterKeeps(rows: seq<ItemMetadata>)
    ensures |UnusedUnsigned(rows)| == |PlainRows(rows, |rows|)|
    ensures forall p: nat | p < |rows| && !rows[p].isUsed && !rows[p].isSigned ::
              && |PlainRows(rows, p)| < |PlainRows(rows, |rows|)|
              && UnusedUnsigned(rows)[|PlainRows(rows, p)|] == rows[p]
    ensures forall m :: m in UnusedUnsigned(rows) <==> m in rows && !m.isUsed && !m.isSigned
  {
    assert rows[..|rows|] == rows;
    UnusedUpTo(rows, |rows|);
    KeptAreRows(rows);
    forall m | m in rows && !m.isUsed && !m.isSigned ensures m in UnusedUnsigned(rows) {
      var p: nat :| p < |rows| && rows[p] == m;
      assert UnusedUnsigned(rows)[|PlainRows(rows, p)|] == m;
    }
  }

  lemma {:induction false} KeptAreRows(rows: seq<ItemMetadata>)
    ensures forall m :: m in UnusedUnsigned(rows) ==> m in rows && !m.isUsed && !m.isSigned
  {
    if rows != [] {
      KeptAreRows(rows[1..]);
    }
  }

  /** Some row that is neither used nor signed has this rarity. */
  ghost predicate HasPlain(rows: seq<ItemMetadata>, rarity: ComicRarity) {
    exists m :: m in rows && !m.isUsed && !m.isSigned && m.rarity == rarity
  }

  /** A plan exists exactly when the number of rows that are neither used nor signed has a share table, and every
      rarity of the table occurs among them. */
  lemma {:induction false} BatchPlanExactly(rows: seq<ItemMetadata>, supply: nat)
    ensures var table := GetRarityShareTable(|PlainRows(rows, |rows|)|);
            BatchPlan(rows, supply).Some?
            <==> table.Some? && forall i :: 0 <= i < |table.value| ==> HasPlain(rows, table.value[i].rarity)
  {
    FilterKeeps(rows);
    var unused := UnusedUnsigned(rows);
    var table := GetRarityShareTable(|unused|);
    if table.Some? {
      forall i | 0 <= i < |table.value|
        ensures FindMetadata(unused, table.value[i].rarity).Some? <==> HasPlain(rows, table.value[i].rarity)
      {
        FoundExactly(rows, table.value[i].rarity);
      }
    }
  }

  lemma {:induction false} FoundExactly(rows: seq<ItemMetadata>, rarity: ComicRarity)
    ensures var found := FindMetadata(UnusedUnsigned(rows), rarity);
            && (found.Some? <==> HasPlain(rows, rarity))
            && (found.Some? ==> PlainFile(rows, rarity, found.value.uri))
  {
    FilterKeeps(rows);
  }

  /** The items of the shares before the `i`-th, each rounded down. */
  ghost function FloorsBefore(supply: nat, shares: seq<RarityShare>, i: nat): nat
    requires i <= |shares|
  {
    if i == 0 then 0 else FloorsBefore(supply, shares, i - 1) + supply * shares[i - 1].value / 100
  }

  /** Item `k` belongs to the `i`-th share: the last one has all that the others leave. */
  ghost predicate InPart(supply: nat, shares: seq<RarityShare>, i: nat, k: nat) {
    && i < |shares|
    && FloorsBefore(supply, shares, i) <= k
    && k < if i == |shares| - 1 then supply else FloorsBefore(supply, shares, i + 1)
  }

  /** `uri` is the file of a row of this rarity that is neither used nor signed. */
  ghost predicate PlainFile(rows: seq<ItemMetadata>, rarity: ComicRarity, uri: string) {
    exists m :: m in rows && !m.isUsed && !m.isSigned && m.rarity == rarity && m.uri == uri
  }

  /** The right file for item `k`: that of a row with the rarity of the share the item belongs to. */
  ghost predicate RightFile(rows: seq<ItemMetadata>, supply: nat, k: nat, uri: string) {
    var table := GetRarityShareTable(|PlainRows(rows, |rows|)|);
    table.Some? && exists i: nat :: InPart(supply, table.value, i, k) && PlainFile(rows, table.value[i].rarity, uri)
  }

  lemma {:induction false} TotalUpTo(configs: seq<RarityConfig>, i: nat)
    requires i < |configs|
    ensures TotalSupply(configs[..i + 1]) == TotalSupply(configs[..i]) + configs[i].supply
  {
    assert configs[..i + 1] == configs[..i] + [configs[i]];
    TotalSupplyAppend(configs[..i], [configs[i]]);
  }

  /** Which config a line of the plan comes from. */
  lemma {:induction false} ConfigOfLine(configs: seq<RarityConfig>, name: string, before: nat, k: nat)
    returns (i: nat)
    requires k < |PlannedLines(configs, name, before)|
    ensures i < |configs| && PlannedLines(configs, name, before)[k].uri == configs[i].uri
    ensures TotalSupply(configs[..i]) <= k < TotalSupply(configs[..i]) + configs[i].supply
  {
    var head := configs[0].supply;
    if k < head {
      i := 0;
      ItemsAt(configs[0].uri, name, before, head, k);
    } else {
      var rest := ConfigOfLine(configs[1..], name, before + head, k - head);
      i := rest + 1;
      assert configs[..i] == [configs[0]] + configs[1..][..rest];
      TotalSupplyAppend([configs[0]], configs[1..][..rest]);
      assert [configs[0]][1..] == [];
    }
  }

  /** Each config of a plan: the file of a plain row of its rarity, its supply and the items before it. */
  lemma {:induction false} PlanAt(rows: seq<ItemMetadata>, supply: nat, plan: seq<RarityConfig>,
          shares: seq<RarityShare>, i: nat)
    requires BatchPlan(rows, supply) == Some(plan)
    requires GetRarityShareTable(|PlainRows(rows, |rows|)|) == Some(shares) && i < |shares|
    ensures |plan| == |shares| && PlainFile(rows, shares[i].rarity, plan[i].uri)
    ensures TotalSupply(plan[..i]) == FloorsBefore(supply, shares, i)
    ensures i < |shares| - 1 ==> plan[i].supply == supply * shares[i].value / 100
    ensures i == |shares| - 1 ==> plan[i].supply == supply - FloorsBefore(supply, shares, i)
  {
    var unused := UnusedUnsigned(rows);
    FilterKeeps(rows);
    TablesAreValid(|unused|);
    FoundExactly(rows, shares[i].rarity);
    WithAt(shares, unused, supply, plan, i);
    WithUsesSupply(shares, unused, supply);
    PartsOfPlan(supply, shares, plan, i);
  }

  lemma {:induction false} WithAt(shares: seq<RarityShare>, unused: seq<ItemMetadata>, supply: nat,
          plan: seq<RarityConfig>, i: nat)
    requires ValidShares(shares) && BatchWith(shares, unused, supply) == Some(plan) && i < |shares|
    ensures |plan| == |shares|
    ensures FindMetadata(unused, shares[i].rarity).Some?
    ensures plan[i].uri == FindMetadata(unused, shares[i].rarity).value.uri
    ensures FloorParts(supply, shares, plan)
  {
    var parts := Split(supply, supply, shares);
    ConfigAt(shares, parts, unused, i);
    forall k | 0 <= k < |shares| - 1 ensures plan[k].supply == supply * shares[k].value / 100 {
      ConfigAt(shares, parts, unused, k);
      assert IsFloorShare(supply, shares[k].value, parts[k]);
    }
  }

  ghost predicate FloorParts(supply: nat, shares: seq<RarityShare>, plan: seq<RarityConfig>) {
    |plan| == |shares| && forall k :: 0 <= k < |shares| - 1 ==> plan[k].supply == supply * shares[k].value / 100
  }

  lemma {:induction false} PartsOfPlan(supply: nat, shares: seq<RarityShare>, plan: seq<RarityConfig>, i: nat)
    requires FloorParts(supply, shares, plan) && TotalSupply(plan) == supply && i < |plan|
    ensures TotalSupply(plan[..i]) == FloorsBefore(supply, shares, i)
    ensures i == |shares| - 1 ==> plan[i].supply == supply - FloorsBefore(supply, shares, i)
  {
    if i > 0 {
      PartsOfPlan(supply, shares, plan, i - 1);
      TotalUpTo(plan, i - 1);
    }
    if i == |shares| - 1 {
      TotalUpTo(plan, i);
      assert plan[..i + 1] == plan;
    }
  }

  /** Every line of the plan carries the file of a plain row of the rarity it belongs to. */
  lemma {:induction false} PlannedFile(rows: seq<ItemMetadata>, supply: nat, plan: seq<RarityConfig>, name: string,
          before: nat, k: nat)
    requires BatchPlan(rows, supply) == Some(plan) && k < supply
    ensures |PlannedLines(plan, name, before)| == supply
    ensures RightFile(rows, supply, k, PlannedLines(plan, name, before)[k].uri)
  {
    BatchPlanUsesSupply(rows, supply);
    PlannedNames(plan, name, before);
    BatchPlanExactly(rows, supply);
    var shares := GetRarityShareTable(|PlainRows(rows, |rows|)|).value;
    var i := ConfigOfLine(plan, name, before, k);
    PlanAt(rows, supply, plan, shares, 0);
    PlanAt(rows, supply, plan, shares, i);
    assert InPart(supply, shares, i, k);
  }

  lemma {:induction false} TilesAt(txs: seq<InsertTx>, start: nat, lines: seq<ConfigLine>, t: nat, j: nat)
    requires Tiles(txs, start, lines) && t < |txs| && j < |txs[t].lines|
    ensures start <= txs[t].index && txs[t].index - start + j < |lines|
    ensures txs[t].lines[j] == lines[txs[t].index - start + j]
    ensures 1 <= |txs[t].lines| <= 8
  {
    if t > 0 {
      TilesAt(txs[1..], start + |txs[0].lines|, lines[|txs[0].lines|..], t - 1, j);
    }
  }

  /** A line written at index `k`: the right file, and the next number of the collection. */
  ghost predicate RightLine(rows: seq<ItemMetadata>, supply: nat, name: string, before: nat, k: nat, line: ConfigLine) {
    RightFile(rows, supply, k, line.uri) && line.name == ItemName(name, before + k + 1)
  }

  lemma {:induction false} PlannedLinesAreRight(rows: seq<ItemMetadata>, supply: nat, plan: seq<RarityConfig>,
          name: string, before: nat)
    requires BatchPlan(rows, supply) == Some(plan)
    ensures RightLines(rows, supply, name, before, PlannedLines(plan, name, before))
  {
    PlannedNames(plan, name, before);
    BatchPlanUsesSupply(rows, supply);
    var lines := PlannedLines(plan, name, before);
    forall k: nat | k < |lines| ensures RightLine(rows, supply, name, before, k, lines[k]) {
      PlannedFile(rows, supply, plan, name, before, k);
    }
  }

  ghost predicate RightLines(rows: seq<ItemMetadata>, supply: nat, name: string, before: nat, lines: seq<ConfigLine>) {
    forall k: nat :: k < |lines| ==> RightLine(rows, supply, name, before, k, lines[k])
  }

  /** Every line the transactions write is the right one for its index. */
  ghost predicate AllRight(rows: seq<ItemMetadata>, supply: nat, name: string, before: nat, txs: seq<InsertTx>) {
    forall t, j :: 0 <= t < |txs| && 0 <= j < |txs[t].lines| ==>
      RightLine(rows, supply, name, before, txs[t].index + j, txs[t].lines[j])
  }

  lemma {:induction false} TilesAreLines(txs: seq<InsertTx>, lines: seq<ConfigLine>, n: nat, t: nat, j: nat)
    requires n <= |lines| && Tiles(txs, 0, lines[..n]) && t < |txs| && j < |txs[t].lines|
    ensures txs[t].index + j < |lines| && txs[t].lines[j] == lines[txs[t].index + j]
  {
    var prefix := lines[..n];
    TilesAt(txs, 0, prefix, t, j);
    assert prefix[txs[t].index + j] == lines[txs[t].index + j];
  }

  lemma {:induction false} SentAreRight(rows: seq<ItemMetadata>, supply: nat, plan: seq<RarityConfig>, name: string,
          before: nat, txs: seq<InsertTx>, lines: seq<ConfigLine>, n: nat)
    requires BatchPlan(rows, supply) == Some(plan) && lines == PlannedLines(plan, name, before)
    requires n <= |lines| && Tiles(txs, 0, lines[..n])
    ensures AllRight(rows, supply, name, before, txs)
  {
    PlannedLinesAreRight(rows, supply, plan, name, before);
    forall t: nat, j: nat | t < |txs| && j < |txs[t].lines|
      ensures RightLine(rows, supply, name, before, txs[t].index + j, txs[t].lines[j])
    {
      TilesAreLines(txs, lines, n, t, j);
    }
  }

  /** What it sends before it returns or throws: nothing without a plan, else the plan's lines up to the batch
      whose building throws, each with the file of a plain row of its rarity. */
  method BatchInsertCoreItems(itemMetadatas: seq<ItemMetadata>, onChainName: string, comicIssueSupply: nat,
          currentSupply: nat, budget: Option<nat>)
    returns (txs: seq<InsertTx>, error: Option<PlanError>)
    ensures BatchPlan(itemMetadatas, comicIssueSupply).None? ==> txs == [] && error.Some? && error != Some(BatchFailed)
    ensures BatchPlan(itemMetadatas, comicIssueSupply).Some? ==>
              var plan := BatchPlan(itemMetadatas, comicIssueSupply).value;
              var p := SendConfigs(plan, budget);
              && |PlannedLines(plan, onChainName, currentSupply)| == TotalSupply(plan)
              && error == (if p.threw then Some(BatchFailed) else None)
              && Tiles(txs, 0, PlannedLines(plan, onChainName, currentSupply)[..p.lines])
              && (error.None? ==> |txs| == TxCount(plan))
    ensures error == Some(UnsupportedRarities)
            <==> GetRarityShareTable(|PlainRows(itemMetadatas, |itemMetadatas|)|).None?
    ensures AllRight(itemMetadatas, comicIssueSupply, onChainName, currentSupply, txs)
  {
    FilterKeeps(itemMetadatas);
    var unusedUnsignedMetadatas := UnusedUnsigned(itemMetadatas);
    var table := GetRarityShareTable(|unusedUnsignedMetadatas|);
    if table.None? {
      return [], Some(UnsupportedRarities);
    }
    var rarityShares := table.value;
    TablesAreValid(|unusedUnsignedMetadatas|);
    var parts := SplitSupply(comicIssueSupply, rarityShares);
    SplitUnique(comicIssueSupply, rarityShares, parts, Split(comicIssueSupply, comicIssueSupply, rarityShares));
    var configs := RarityConfigs(rarityShares, parts, unusedUnsignedMetadatas);
    if configs.Failure? {
      return [], Some(configs.error);
    }
    var threw: bool;
    txs, threw := InsertConfigs(configs.value, onChainName, currentSupply, budget);
    error := if threw then Some(BatchFailed) else None;
    ghost var lines := PlannedLines(configs.value, onChainName, currentSupply);
    ghost var n := SendConfigs(configs.value, budget).lines;
    SentAreRight(itemMetadatas, comicIssueSupply, configs.value, onChainName, currentSupply, txs, lines, n);
  }
}

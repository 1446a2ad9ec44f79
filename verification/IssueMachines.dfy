/** Candy machines of one collection: how item numbers run on from one publication to the next. */
module IssueMachines {
  import opened Wrappers
  import opened InsertPlan

  /** A candy machine row and the config lines its insertion wrote on chain: all, some, or none of them. */
  datatype MachineRow = MachineRow(onChainName: string, supply: nat, account: map<nat, ConfigLine>)

  /** The machines of a collection in order of creation, and its stored item metadata. */
  datatype Collection = Collection(machines: seq<MachineRow>, metadata: seq<ItemMetadata>)

  /** One call of createComicIssueCM: `uploaded` is what uploading the item metadata returns, None when it
      throws; `budget` is how many insertion batches can be built before building one throws, None if none does. */
  datatype Publication =
    Publication(onChainName: string, supply: nat, uploaded: Option<seq<ItemMetadata>>, budget: Option<nat>)

  const NEW_COLLECTION := Collection([], [])

  /** The `_sum` over the collection's machines; the database's null for no rows counts as zero. */
  function CurrentSupply(machines: seq<MachineRow>): nat {
    if machines == [] then 0 else CurrentSupply(machines[..|machines| - 1]) + machines[|machines| - 1].supply
  }

  /** The two uniqueness constraints on stored rows: the uri, and the combination of traits. */
  predicate Clash(a: ItemMetadata, b: ItemMetadata) {
    a.uri == b.uri || (a.isUsed == b.isUsed && a.isSigned == b.isSigned && a.rarity == b.rarity)
  }

  /** createMany with skipDuplicates: rows that clash with a stored one are skipped. */
  function StoreMetadata(stored: seq<ItemMetadata>, rows: seq<ItemMetadata>): seq<ItemMetadata>
    decreases |rows|
  {
    if rows == [] then stored
    else if exists m :: m in stored && Clash(m, rows[0]) then StoreMetadata(stored, rows[1..])
    else StoreMetadata(stored + [rows[0]], rows[1..])
  }

  /** The metadata rows a publication inserts from: the stored ones once the collection has supply. */
  function Source(c: Collection, p: Publication): Option<seq<ItemMetadata>> {
    if CurrentSupply(c.machines) > 0 then Some(c.metadata) else p.uploaded
  }

  /** The lines a plan puts on chain before a batch throws, if one does. */
  ghost function SentLines(plan: seq<RarityConfig>, onChainName: string, before: nat,
          budget: Option<nat>): map<nat, ConfigLine> {
    PlannedNames(plan, onChainName, before);
    LineMap(0, PlannedLines(plan, onChainName, before)[..SendConfigs(plan, budget).lines])
  }

  /** The lines a publication from `rows` puts on chain. */
  ghost function AccountFrom(rows: Option<seq<ItemMetadata>>, p: Publication, before: nat): map<nat, ConfigLine> {
    if rows.None? || BatchPlan(rows.value, p.supply).None? then map[]
    else SentLines(BatchPlan(rows.value, p.supply).value, p.onChainName, before, p.budget)
  }

  ghost function Account(c: Collection, p: Publication): map<nat, ConfigLine> {
    AccountFrom(Source(c, p), p, CurrentSupply(c.machines))
  }

  ghost function Publish(c: Collection, p: Publication): Collection {
    var uploads := CurrentSupply(c.machines) == 0 && p.uploaded.Some?;
    var metadata := if uploads then StoreMetadata(c.metadata, p.uploaded.value) else c.metadata;
    Collection(c.machines + [MachineRow(p.onChainName, p.supply, Account(c, p))], metadata)
  }

  ghost function Publications(runs: seq<Publication>): Collection {
    if runs == [] then NEW_COLLECTION else Publish(Publications(runs[..|runs| - 1]), runs[|runs| - 1])
  }

  lemma {:induction false} InsertedAccount(rows: seq<ItemMetadata>, p: Publication, before: nat, txs: seq<InsertTx>)
    requires BatchPlan(rows, p.supply).None? ==> txs == []
    requires BatchPlan(rows, p.supply).Some? ==>
               var plan := BatchPlan(rows, p.supply).value;
               && |PlannedLines(plan, p.onChainName, before)| == TotalSupply(plan)
               && Tiles(txs, 0, PlannedLines(plan, p.onChainName, before)[..SendConfigs(plan, p.budget).lines])
    ensures Apply(map[], txs) == AccountFrom(Some(rows), p, before)
  {
    if BatchPlan(rows, p.supply).Some? {
      var plan := BatchPlan(rows, p.supply).value;
      var lines := PlannedLines(plan, p.onChainName, before)[..SendConfigs(plan, p.budget).lines];
      TilesFill(txs, 0, lines, map[]);
      assert map[] + LineMap(0, lines) == LineMap(0, lines);
    }
  }

  /** The database rows and the chain accounts the service changes. */
  class IssueCollection {
    var machines: seq<MachineRow>
    var metadata: seq<ItemMetadata>

    constructor ()
      ensures State() == NEW_COLLECTION
    {
      machines, metadata := [], [];
    }

    function State(): Collection
      reads this
    {
      Collection(machines, metadata)
    }

    /** The row is written first; a failure while uploading or inserting is caught, so the row, its supply and
        the lines sent by then stay. */
    method CreateComicIssueCM(p: Publication)
      modifies this
      ensures State() == Publish(old(State()), p)
    {
      var currentSupply := CurrentSupply(machines);
      var row := MachineRow(p.onChainName, p.supply, map[]);
      machines := machines + [row];
      var itemMetadatas: seq<ItemMetadata>;
      if currentSupply > 0 {
        itemMetadatas := metadata;
      } else if p.uploaded.None? {
        return;
      } else {
        itemMetadatas := p.uploaded.value;
        metadata := StoreMetadata(metadata, itemMetadatas);
      }
      var inserted, error := BatchInsertCoreItems(itemMetadatas, p.onChainName, p.supply, currentSupply, p.budget);
      InsertedAccount(itemMetadatas, p, currentSupply, inserted);
      machines := machines[..|machines| - 1] + [row.(account := Apply(map[], inserted))];
    }
  }

  // ---------- numbering over all runs ----------

  /** The number of items in the machines created before machine `k`. */
  function Offset(machines: seq<MachineRow>, k: nat): nat
    requires k <= |machines|
  {
    CurrentSupply(machines[..k])
  }

  ghost predicate HoldsFirst(machine: MachineRow, loaded: nat) {
    forall i: nat :: i in machine.account <==> i < loaded
  }

  ghost predicate Loaded(machine: MachineRow) {
    HoldsFirst(machine, machine.supply)
  }

  /** A machine holds its first lines, all or fewer, each numbered on from its offset. */
  ghost predicate Numbered(machine: MachineRow, offset: nat) {
    && (exists loaded: nat :: loaded <= machine.supply && HoldsFirst(machine, loaded))
    && forall i :: i in machine.account ==>
         i < machine.supply && machine.account[i].name == ItemName(machine.onChainName, offset + i + 1)
  }

  ghost predicate AllNumbered(machines: seq<MachineRow>) {
    forall k :: 0 <= k < |machines| ==> Numbered(machines[k], Offset(machines, k))
  }

  /** Which publications load their machine completely: they have rows with a plan, and no batch throws. */
  ghost predicate Completes(rows: Option<seq<ItemMetadata>>, p: Publication) {
    && rows.Some? && BatchPlan(rows.value, p.supply).Some?
    && (p.budget.Some? ==> BatchCount(BatchPlan(rows.value, p.supply).value) <= p.budget.value)
  }

  lemma {:induction false} AccountNumbered(rows: Option<seq<ItemMetadata>>, p: Publication, before: nat)
    ensures var machine := MachineRow(p.onChainName, p.supply, AccountFrom(rows, p, before));
            Numbered(machine, before) && (p.supply > 0 ==> (Loaded(machine) <==> Completes(rows, p)))
  {
    var machine := MachineRow(p.onChainName, p.supply, AccountFrom(rows, p, before));
    if rows.Some? && BatchPlan(rows.value, p.supply).Some? {
      var plan := BatchPlan(rows.value, p.supply).value;
      var sent := SendConfigs(plan, p.budget).lines;
      BatchPlanUsesSupply(rows.value, p.supply);
      PlannedNames(plan, p.onChainName, before);
      ThrowsExactly(plan, p.budget);
      assert HoldsFirst(machine, sent);
      assert sent < p.supply ==> sent !in machine.account;
    } else {
      assert HoldsFirst(machine, 0);
      assert p.supply > 0 ==> 0 !in machine.account;
    }
  }

  lemma {:induction false} OffsetOfPrefix(machines: seq<MachineRow>, more: seq<MachineRow>, k: nat)
    requires k <= |machines|
    ensures Offset(machines + more, k) == Offset(machines, k)
  {
    assert (machines + more)[..k] == machines[..k];
  }

  lemma {:induction false} RunsNumbered(runs: seq<Publication>)
    ensures AllNumbered(Publications(runs).machines)
  {
    if runs != [] {
      var c := Publications(runs[..|runs| - 1]);
      var p := runs[|runs| - 1];
      RunsNumbered(runs[..|runs| - 1]);
      AccountNumbered(Source(c, p), p, CurrentSupply(c.machines));
      var after := Publications(runs).machines;
      forall k | 0 <= k < |after| ensures Numbered(after[k], Offset(after, k)) {
        OffsetOfPrefix(c.machines, [after[|c.machines|]], k);
        assert c.machines[..|c.machines|] == c.machines;
      }
    }
  }

  lemma {:induction false} OffsetStep(machines: seq<MachineRow>, k: nat)
    requires k < |machines|
    ensures Offset(machines, k + 1) == Offset(machines, k) + machines[k].supply
  {
    assert machines[..k + 1][..k] == machines[..k];
  }

  lemma {:induction false} OffsetMonotone(machines: seq<MachineRow>, j: nat, k: nat)
    requires j <= k <= |machines|
    ensures Offset(machines, j) <= Offset(machines, k)
  {
    if j < k {
      OffsetMonotone(machines, j, k - 1);
      OffsetStep(machines, k - 1);
    }
  }

  /** Item `i` of machine `k` is on chain. */
  ghost predicate OnChain(machines: seq<MachineRow>, k: int, i: nat) {
    0 <= k < |machines| && i in machines[k].account
  }

  lemma {:induction false} NumberRange(ms: seq<MachineRow>, k: int, i: nat)
    requires AllNumbered(ms) && OnChain(ms, k, i)
    ensures ms[k].account[i].name.number == Offset(ms, k) + i + 1
    ensures Offset(ms, k) < ms[k].account[i].name.number <= Offset(ms, k + 1) <= CurrentSupply(ms)
  {
    assert Numbered(ms[k], Offset(ms, k));
    OffsetStep(ms, k);
    OffsetMonotone(ms, k + 1, |ms|);
    assert ms[..|ms|] == ms;
  }

  lemma {:induction false} SameNumberSameItem(ms: seq<MachineRow>, k: nat, i: nat, k': nat, i': nat)
    requires AllNumbered(ms) && OnChain(ms, k, i) && OnChain(ms, k', i')
    requires ms[k].account[i].name.number == ms[k'].account[i'].name.number
    ensures k == k' && i == i'
  {
    NumberRange(ms, k, i);
    NumberRange(ms, k', i');
    if k < k' {
      OffsetMonotone(ms, k + 1, k');
    } else if k' < k {
      OffsetMonotone(ms, k' + 1, k);
    }
  }

  /** No two items of a collection are given the same name, over any runs, whatever names the runs use. */
  lemma {:induction false} NoNameRepeats(runs: seq<Publication>, k: nat, i: nat, k': nat, i': nat)
    requires var ms := Publications(runs).machines;
             && OnChain(ms, k, i) && OnChain(ms, k', i')
             && ms[k].account[i].name.Text() == ms[k'].account[i'].name.Text()
    ensures k == k' && i == i'
  {
    var ms := Publications(runs).machines;
    RunsNumbered(runs);
    SameTextSameNumber(ms[k].account[i].name, ms[k'].account[i'].name);
    SameNumberSameItem(ms, k, i, k', i');
  }

  ghost predicate NumberUsed(machines: seq<MachineRow>, n: nat) {
    exists k, i :: OnChain(machines, k, i) && machines[k].account[i].name.number == n
  }

  lemma {:induction false} FindMachine(machines: seq<MachineRow>, n: nat, upTo: nat) returns (k: nat)
    requires upTo <= |machines| && 1 <= n <= Offset(machines, upTo)
    ensures k < upTo && Offset(machines, k) < n <= Offset(machines, k + 1)
  {
    assert upTo > 0;
    OffsetStep(machines, upTo - 1);
    if n <= Offset(machines, upTo - 1) {
      k := FindMachine(machines, n, upTo - 1);
    } else {
      k := upTo - 1;
    }
  }

  lemma {:induction false} LoadedUsesNumber(ms: seq<MachineRow>, n: nat)
    requires AllNumbered(ms) && forall k :: 0 <= k < |ms| ==> Loaded(ms[k])
    requires 1 <= n <= CurrentSupply(ms)
    ensures NumberUsed(ms, n)
  {
    assert ms[..|ms|] == ms;
    var k := FindMachine(ms, n, |ms|);
    OffsetStep(ms, k);
    assert Numbered(ms[k], Offset(ms, k));
    assert OnChain(ms, k, n - Offset(ms, k) - 1);
  }

  lemma {:induction false} UnloadedLeavesGap(ms: seq<MachineRow>, k: nat) returns (n: nat)
    requires AllNumbered(ms) && k < |ms| && !Loaded(ms[k])
    ensures 1 <= n <= CurrentSupply(ms) && !NumberUsed(ms, n)
  {
    assert Numbered(ms[k], Offset(ms, k));
    var i: nat :| i < ms[k].supply && i !in ms[k].account;
    OffsetStep(ms, k);
    OffsetMonotone(ms, k + 1, |ms|);
    assert ms[..|ms|] == ms;
    n := Offset(ms, k) + i + 1;
    if NumberUsed(ms, n) {
      var j, i' :| OnChain(ms, j, i') && ms[j].account[i'].name.number == n;
      NumberRange(ms, j, i');
      OffsetStep(ms, j);
      if j < k {
        OffsetMonotone(ms, j + 1, k);
      } else if k < j {
        OffsetMonotone(ms, k + 1, j);
      }
      assert false;
    }
  }

  lemma {:induction false} GapsAreUnloaded(ms: seq<MachineRow>)
    requires AllNumbered(ms)
    ensures (forall n: nat :: 1 <= n <= CurrentSupply(ms) ==> NumberUsed(ms, n))
             <==> (forall k :: 0 <= k < |ms| ==> Loaded(ms[k]))
  {
    if forall k :: 0 <= k < |ms| ==> Loaded(ms[k]) {
      forall n: nat | 1 <= n <= CurrentSupply(ms) ensures NumberUsed(ms, n) {
        LoadedUsesNumber(ms, n);
      }
    } else {
      var k :| 0 <= k < |ms| && !Loaded(ms[k]);
      var n := UnloadedLeavesGap(ms, k);
    }
  }

  // ---------- when nothing is missing ----------

  /** What the collection stores after its first publication; nothing when its upload threw. */
  function StoredRows(first: Publication): seq<ItemMetadata> {
    if first.uploaded.Some? then StoreMetadata([], first.uploaded.value) else []
  }

  /** The rows run `r` inserts from: the first run uses what it uploaded, the later ones what is stored. */
  function RowsFor(runs: seq<Publication>, r: nat): Option<seq<ItemMetadata>>
    requires r < |runs|
  {
    if r == 0 then runs[0].uploaded else Some(StoredRows(runs[0]))
  }

  /** Past the gate every publication has a supply. */
  ghost predicate Supplied(runs: seq<Publication>) {
    forall r :: 0 <= r < |runs| ==> runs[r].supply > 0
  }

  lemma {:induction false} AfterFirst(runs: seq<Publication>)
    requires runs != [] && Supplied(runs)
    ensures Publications(runs).metadata == StoredRows(runs[0]) && CurrentSupply(Publications(runs).machines) > 0
  {
    var before := runs[..|runs| - 1];
    var c, p := Publications(before), runs[|runs| - 1];
    if before != [] {
      assert before[0] == runs[0];
      AfterFirst(before);
    }
    var after := Publications(runs).machines;
    assert after[..|after| - 1] == c.machines;
  }

  lemma {:induction false} SourceOf(runs: seq<Publication>, r: nat)
    requires r < |runs| && Supplied(runs)
    ensures Source(Publications(runs[..r]), runs[r]) == RowsFor(runs, r)
  {
    var before := runs[..r];
    if r > 0 {
      assert before[0] == runs[0];
      AfterFirst(before);
    }
  }

  lemma {:induction false} MachinesOfPrefix(runs: seq<Publication>, r: nat)
    requires r <= |runs|
    ensures |Publications(runs).machines| == |runs|
    ensures Publications(runs[..r]).machines == Publications(runs).machines[..r]
  {
    if r == |runs| {
      assert runs[..r] == runs;
      if runs != [] {
        MachinesOfPrefix(runs[..r - 1], r - 1);
      }
      assert Publications(runs).machines[..|Publications(runs).machines|] == Publications(runs).machines;
    } else {
      MachinesOfPrefix(runs[..|runs| - 1], r);
      assert runs[..|runs| - 1][..r] == runs[..r];
    }
  }

  /** The machine of run `r`. */
  lemma {:induction false} MachineOf(runs: seq<Publication>, r: nat)
    requires r < |runs| && Supplied(runs)
    ensures var ms := Publications(runs).machines;
            && |ms| == |runs|
            && ms[r] == MachineRow(runs[r].onChainName, runs[r].supply,
                                   AccountFrom(RowsFor(runs, r), runs[r], CurrentSupply(ms[..r])))
  {
    var ms := Publications(runs).machines;
    SourceOf(runs, r);
    MachinesOfPrefix(runs, r);
    MachinesOfPrefix(runs, r + 1);
    assert runs[..r + 1][..r] == runs[..r];
    assert Publications(runs[..r + 1]) == Publish(Publications(runs[..r]), runs[r]);
    assert ms[..r + 1][r] == ms[r];
  }

  /** A run loads its machine completely exactly when its rows have a plan and none of its batches throws. */
  lemma {:induction false} LoadedExactly(runs: seq<Publication>, r: nat)
    requires r < |runs| && Supplied(runs)
    ensures |Publications(runs).machines| == |runs|
    ensures Loaded(Publications(runs).machines[r]) <==> Completes(RowsFor(runs, r), runs[r])
  {
    MachineOf(runs, r);
    AccountNumbered(RowsFor(runs, r), runs[r], CurrentSupply(Publications(runs).machines[..r]));
  }

  /** The numbers #1 to #total are all used exactly when every run had rows with a plan and threw in no batch,
      where the first upload alone decides the rows of all later runs. */
  lemma {:induction false} NumbersWithoutGap(runs: seq<Publication>)
    requires Supplied(runs)
    ensures var ms := Publications(runs).machines;
            (forall n: nat :: 1 <= n <= CurrentSupply(ms) ==> NumberUsed(ms, n))
            <==> (forall r :: 0 <= r < |runs| ==> Completes(RowsFor(runs, r), runs[r]))
  {
    var ms := Publications(runs).machines;
    RunsNumbered(runs);
    GapsAreUnloaded(ms);
    forall r | 0 <= r < |runs| ensures |ms| == |runs| && (Loaded(ms[r]) <==> Completes(RowsFor(runs, r), runs[r])) {
      LoadedExactly(runs, r);
    }
  }

  /** Whether a plan exists does not depend on the supply. */
  lemma {:induction false} PlanForAnySupply(metadata: seq<ItemMetadata>, s: nat, s': nat)
    requires BatchPlan(metadata, s).Some?
    ensures BatchPlan(metadata, s').Some?
  {}

  ghost predicate DistinctRows(rows: seq<ItemMetadata>) {
    forall i, j :: 0 <= i < j < |rows| ==> !Clash(rows[i], rows[j])
  }

  lemma {:induction false} StoresAll(stored: seq<ItemMetadata>, rows: seq<ItemMetadata>)
    requires DistinctRows(stored + rows)
    ensures StoreMetadata(stored, rows) == stored + rows
    decreases |rows|
  {
    if rows == [] {
      assert stored + rows == stored;
    } else {
      assert (stored + rows)[|stored|] == rows[0];
      forall m | m in stored ensures !Clash(m, rows[0]) {
        var i :| 0 <= i < |stored| && stored[i] == m;
        assert (stored + rows)[i] == m;
      }
      assert stored + rows == stored + [rows[0]] + rows[1..];
      StoresAll(stored + [rows[0]], rows[1..]);
    }
  }

  lemma {:induction false} StoreAppend(stored: seq<ItemMetadata>, rows: seq<ItemMetadata>, more: seq<ItemMetadata>)
    ensures StoreMetadata(stored, rows + more) == StoreMetadata(StoreMetadata(stored, rows), more)
    decreases |rows|
  {
    if rows == [] {
      assert rows + more == more;
    } else {
      HeadAndRest(rows, more);
      if !(exists m :: m in stored && Clash(m, rows[0])) {
        StoreAppend(stored + [rows[0]], rows[1..], more);
      } else {
        StoreAppend(stored, rows[1..], more);
      }
    }
  }

  /** First come, first stored: a row is skipped exactly when one stored before it has its file, or its use,
      signature and rarity. */
  lemma {:induction false} StoredExactly(rows: seq<ItemMetadata>, i: nat)
    requires i < |rows|
    ensures var before, after := StoreMetadata([], rows[..i]), StoreMetadata([], rows[..i + 1]);
            after == if exists m :: m in before
                               && (m.uri == rows[i].uri
                                   || (m.isUsed == rows[i].isUsed && m.isSigned == rows[i].isSigned
                                       && m.rarity == rows[i].rarity))
                     then before else before + [rows[i]]
  {
    var before := StoreMetadata([], rows[..i]);
    assert rows[..i + 1] == rows[..i] + [rows[i]];
    StoreAppend([], rows[..i], [rows[i]]);
    assert [rows[i]][1..] == [];
    if m :| m in before && Clash(m, rows[i]) {
      assert m in before && (m.uri == rows[i].uri || (m.isUsed == rows[i].isUsed && m.isSigned == rows[i].isSigned
                                                      && m.rarity == rows[i].rarity));
    }
  }

  /** Over any runs every line on chain carries the file of a row its run inserts from that is neither used nor
      signed and has the rarity the item's index belongs to. */
  lemma {:induction false} RunsRightFiles(runs: seq<Publication>, r: nat, i: nat)
    requires r < |runs| && Supplied(runs)
    requires |Publications(runs).machines| == |runs| && i in Publications(runs).machines[r].account
    ensures RowsFor(runs, r).Some?
    ensures RightLine(RowsFor(runs, r).value, runs[r].supply, runs[r].onChainName,
                      CurrentSupply(Publications(runs).machines[..r]), i, Publications(runs).machines[r].account[i])
  {
    var rows, p := RowsFor(runs, r), runs[r];
    var before := CurrentSupply(Publications(runs).machines[..r]);
    MachineOf(runs, r);
    AccountIsRight(rows, p, before, i);
  }

  lemma {:induction false} AccountIsRight(rows: Option<seq<ItemMetadata>>, p: Publication, before: nat, i: nat)
    requires i in AccountFrom(rows, p, before)
    ensures rows.Some?
    ensures RightLine(rows.value, p.supply, p.onChainName, before, i, AccountFrom(rows, p, before)[i])
  {
    var plan := BatchPlan(rows.value, p.supply).value;
    PlannedNames(plan, p.onChainName, before);
    PlannedLinesAreRight(rows.value, p.supply, plan, p.onChainName, before);
  }

  /** Uploaded rows with a file and a combination of traits of their own are stored as they are. */
  lemma {:induction false} RowsAreUploaded(runs: seq<Publication>, r: nat)
    requires r < |runs| && runs[0].uploaded.Some? && DistinctRows(runs[0].uploaded.value)
    ensures RowsFor(runs, r) == runs[0].uploaded
  {
    var rows := runs[0].uploaded.value;
    assert [] + rows == rows;
    StoresAll([], rows);
  }

  /** A first upload that throws is never made up for: nothing is stored, and no publication of the collection
      ever loads a line. */
  lemma {:induction false} FailedUploadIsForEver(runs: seq<Publication>)
    requires runs != [] && Supplied(runs) && runs[0].uploaded.None?
    ensures var c := Publications(runs);
            c.metadata == [] && forall k :: 0 <= k < |c.machines| ==> c.machines[k].account == map[]
  {
    AfterFirst(runs);
    NoPlanFromNothing();
    MachineOf(runs, 0);
    forall r | 0 <= r < |Publications(runs).machines| ensures Publications(runs).machines[r].account == map[] {
      MachineOf(runs, r);
    }
  }

  lemma {:induction false} NoPlanFromNothing()
    ensures forall supply: nat :: BatchPlan([], supply).None?
  {}

  /** Nor is an upload of distinct rows that have no plan. */
  lemma {:induction false} UnusableUploadIsForEver(runs: seq<Publication>)
    requires runs != [] && Supplied(runs) && runs[0].uploaded.Some? && DistinctRows(runs[0].uploaded.value)
    requires BatchPlan(runs[0].uploaded.value, runs[0].supply).None?
    ensures var ms := Publications(runs).machines; forall k :: 0 <= k < |ms| ==> ms[k].account == map[]
  {
    MachineOf(runs, 0);
    forall r | 0 <= r < |Publications(runs).machines| ensures Publications(runs).machines[r].account == map[] {
      MachineOf(runs, r);
      RowsAreUploaded(runs, r);
      if BatchPlan(runs[0].uploaded.value, runs[r].supply).Some? {
        PlanForAnySupply(runs[0].uploaded.value, runs[r].supply, runs[0].supply);
      }
    }
  }

  /** A first upload of distinct rows with a plan serves every later run: each loads completely exactly when
      none of its own batches throws. */
  lemma {:induction false} OneUploadSuffices(runs: seq<Publication>, r: nat)
    requires r < |runs| && Supplied(runs) && runs[0].uploaded.Some? && DistinctRows(runs[0].uploaded.value)
    requires BatchPlan(runs[0].uploaded.value, runs[0].supply).Some?
    ensures Publications(runs).metadata == runs[0].uploaded.value
    ensures var plan := BatchPlan(runs[0].uploaded.value, runs[r].supply);
            && plan.Some? && r < |Publications(runs).machines|
            && (Loaded(Publications(runs).machines[r])
                <==> (runs[r].budget.Some? ==> BatchCount(plan.value) <= runs[r].budget.value))
  {
    AfterFirst(runs);
    RowsAreUploaded(runs, r);
    StoresAll([], runs[0].uploaded.value);
    assert [] + runs[0].uploaded.value == runs[0].uploaded.value;
    PlanForAnySupply(runs[0].uploaded.value, runs[0].supply, runs[r].supply);
    LoadedExactly(runs, r);
  }

  /** Where no batch throws and uploads bring distinct rows, the first upload decides for good: all numbers are
      used exactly when it returns rows that have a plan. */
  lemma {:induction false} FirstUploadDecides(runs: seq<Publication>)
    requires runs != [] && Supplied(runs) && forall r :: 0 <= r < |runs| ==> runs[r].budget.None?
    requires runs[0].uploaded.Some? ==> DistinctRows(runs[0].uploaded.value)
    ensures var ms := Publications(runs).machines;
            (forall n: nat :: 1 <= n <= CurrentSupply(ms) ==> NumberUsed(ms, n))
            <==> (runs[0].uploaded.Some? && BatchPlan(runs[0].uploaded.value, runs[0].supply).Some?)
  {
    NumbersWithoutGap(runs);
    assert RowsFor(runs, 0) == runs[0].uploaded;
    if runs[0].uploaded.Some? && BatchPlan(runs[0].uploaded.value, runs[0].supply).Some? {
      forall r | 0 <= r < |runs| ensures Completes(RowsFor(runs, r), runs[r]) {
        RowsAreUploaded(runs, r);
        PlanForAnySupply(runs[0].uploaded.value, runs[0].supply, runs[r].supply);
      }
    } else {
      assert !Completes(RowsFor(runs, 0), runs[0]);
    }
  }

  /** The shortest run with a gap: the first upload throws, and number 1 is never used. */
  lemma {:induction false} FailedUploadLeavesGap(onChainName: string)
    ensures var ms := Publications([Publication(onChainName, 1, None, None)]).machines;
            CurrentSupply(ms) == 1 && !NumberUsed(ms, 1)
  {
    var runs := [Publication(onChainName, 1, None, None)];
    var ms := Publications(runs).machines;
    FailedUploadIsForEver(runs);
    SupplyOfOne(runs);
  }

  lemma {:induction false} SupplyOfOne(runs: seq<Publication>)
    requires |runs| == 1 && Supplied(runs)
    ensures CurrentSupply(Publications(runs).machines) == runs[0].supply
  {
    var ms := Publications(runs).machines;
    MachineOf(runs, 0);
    assert ms[..0] == [];
  }
}

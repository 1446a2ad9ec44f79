/** Daily primary-sale snapshots: day by day they add up to the value of the whole interval. */
module PrimarySale {
  import opened Wrappers

  datatype Setting = Setting(groupLabel: string, usdcEquivalent: nat)

  /** A candy machine with the currency settings of all its coupons. */
  datatype Machine = Machine(address: string, deletedAt: Option<nat>, settings: seq<Setting>)

  datatype Receipt = Receipt(machine: string, groupLabel: string, timestamp: nat, numberOfItems: nat)

  datatype Key = Key(machine: string, groupLabel: string, usdcEquivalent: nat)

  /** The deletion filter `not: { lt: lastMidnight }`; `nullMatches` says what it does with a machine without a
      deletion date. */
  predicate Selected(m: Machine, lastMidnight: nat, nullMatches: bool) {
    match m.deletedAt
    case None => nullMatches
    case Some(at) => at >= lastMidnight
  }

  function MachineKeys(address: string, settings: seq<Setting>): seq<Key> {
    if settings == [] then []
    else MachineKeys(address, settings[..|settings| - 1])
           + [Key(address, settings[|settings| - 1].groupLabel, settings[|settings| - 1].usdcEquivalent)]
  }

  /** The keys of the selected machines, machine by machine. */
  function Keys(machines: seq<Machine>, lastMidnight: nat, nullMatches: bool): seq<Key> {
    if machines == [] then []
    else
      var m := machines[|machines| - 1];
      Keys(machines[..|machines| - 1], lastMidnight, nullMatches)
      + (if Selected(m, lastMidnight, nullMatches) then MachineKeys(m.address, m.settings) else [])
  }

  predicate Counts(key: Key, r: Receipt, after: nat, upTo: nat) {
    r.machine == key.machine && r.groupLabel == key.groupLabel && after < r.timestamp <= upTo
  }

  /** The aggregate query for one key: a sum over the receipts, whatever their status. */
  function ItemsMinted(receipts: seq<Receipt>, key: Key, after: nat, upTo: nat): nat {
    if receipts == [] then 0
    else
      var r := receipts[|receipts| - 1];
      ItemsMinted(receipts[..|receipts| - 1], key, after, upTo)
        + (if Counts(key, r, after, upTo) then r.numberOfItems else 0)
  }

  function KeySale(key: Key, receipts: seq<Receipt>, after: nat, upTo: nat): nat {
    key.usdcEquivalent * ItemsMinted(receipts, key, after, upTo)
  }

  function SaleOf(keys: seq<Key>, receipts: seq<Receipt>, after: nat, upTo: nat): nat {
    if keys == [] then 0
    else
      SaleOf(keys[..|keys| - 1], receipts, after, upTo) + KeySale(keys[|keys| - 1], receipts, after, upTo)
  }

  function PrimarySaleOn(machines: seq<Machine>, receipts: seq<Receipt>, lastMidnight: nat, midnight: nat,
          nullMatches: bool): nat {
    SaleOf(Keys(machines, lastMidnight, nullMatches), receipts, lastMidnight, midnight)
  }

  lemma {:induction false} SaleSnoc(keys: seq<Key>, i: nat, receipts: seq<Receipt>, after: nat, upTo: nat)
    requires i < |keys|
    ensures SaleOf(keys[..i + 1], receipts, after, upTo)
            == SaleOf(keys[..i], receipts, after, upTo) + KeySale(keys[i], receipts, after, upTo)
  {
    assert keys[..i + 1][..i] == keys[..i];
  }

  method AggregateItems(receipts: seq<Receipt>, key: Key, after: nat, upTo: nat) returns (sum: nat)
    ensures sum == ItemsMinted(receipts, key, after, upTo)
  {
    sum := 0;
    for j := 0 to |receipts|
      invariant sum == ItemsMinted(receipts[..j], key, after, upTo)
    {
      assert receipts[..j + 1][..j] == receipts[..j];
      if Counts(key, receipts[j], after, upTo) {
        sum := sum + receipts[j].numberOfItems;
      }
    }
    assert receipts[..|receipts|] == receipts;
  }

  /** The two nested flatMaps. */
  method CollectKeys(machines: seq<Machine>, lastMidnight: nat, nullMatches: bool) returns (keys: seq<Key>)
    ensures keys == Keys(machines, lastMidnight, nullMatches)
  {
    keys := [];
    for i := 0 to |machines|
      invariant keys == Keys(machines[..i], lastMidnight, nullMatches)
    {
      assert machines[..i + 1][..i] == machines[..i];
      if Selected(machines[i], lastMidnight, nullMatches) {
        var settings := machines[i].settings;
        var ofMachine: seq<Key> := [];
        for j := 0 to |settings|
          invariant ofMachine == MachineKeys(machines[i].address, settings[..j])
        {
          assert settings[..j + 1][..j] == settings[..j];
          ofMachine := ofMachine + [Key(machines[i].address, settings[j].groupLabel, settings[j].usdcEquivalent)];
        }
        assert settings[..|settings|] == settings;
        keys := keys + ofMachine;
      }
    }
    assert machines[..|machines|] == machines;
  }

  method GetPrimarySale(machines: seq<Machine>, receipts: seq<Receipt>, lastMidnight: nat, midnight: nat,
          nullMatches: bool)
    returns (sales: nat)
    ensures sales == PrimarySaleOn(machines, receipts, lastMidnight, midnight, nullMatches)
  {
    var keys := CollectKeys(machines, lastMidnight, nullMatches);
    sales := 0;
    for i := 0 to |keys|
      invariant sales == SaleOf(keys[..i], receipts, lastMidnight, midnight)
    {
      SaleSnoc(keys, i, receipts, lastMidnight, midnight);
      var totalItemsMinted := AggregateItems(receipts, keys[i], lastMidnight, midnight);
      sales := sales + keys[i].usdcEquivalent * totalItemsMinted;
    }
    assert keys[..|keys|] == keys;
  }

  // ---------- days add up ----------

  lemma {:induction false} ItemsSplit(receipts: seq<Receipt>, key: Key, a: nat, b: nat, c: nat)
    requires a <= b <= c
    ensures ItemsMinted(receipts, key, a, c) == ItemsMinted(receipts, key, a, b) + ItemsMinted(receipts, key, b, c)
  {
    if receipts != [] {
      ItemsSplit(receipts[..|receipts| - 1], key, a, b, c);
    }
  }

  lemma {:induction false} Distribute(u: nat, x: nat, y: nat)
    ensures u * (x + y) == u * x + u * y && (x + y) * u == x * u + y * u
  {}

  lemma {:induction false} SaleSplit(keys: seq<Key>, receipts: seq<Receipt>, a: nat, b: nat, c: nat)
    requires a <= b <= c
    ensures SaleOf(keys, receipts, a, c) == SaleOf(keys, receipts, a, b) + SaleOf(keys, receipts, b, c)
  {
    if keys != [] {
      var key := keys[|keys| - 1];
      SaleSplit(keys[..|keys| - 1], receipts, a, b, c);
      ItemsSplit(receipts, key, a, b, c);
      Distribute(key.usdcEquivalent, ItemsMinted(receipts, key, a, b), ItemsMinted(receipts, key, b, c));
    }
  }

  // ---------- each receipt once ----------

  /** The price of a receipt: the sum of its keys' prices. */
  function Worth(keys: seq<Key>, r: Receipt): nat {
    if keys == [] then 0
    else
      var key := keys[|keys| - 1];
      Worth(keys[..|keys| - 1], r)
        + (if r.machine == key.machine && r.groupLabel == key.groupLabel then key.usdcEquivalent else 0)
  }

  /** The value of the receipts of an interval, receipt by receipt. */
  function ValueOf(keys: seq<Key>, receipts: seq<Receipt>, after: nat, upTo: nat): nat {
    if receipts == [] then 0
    else
      var r := receipts[|receipts| - 1];
      ValueOf(keys, receipts[..|receipts| - 1], after, upTo) + Extra(keys, r, after, upTo)
  }

  /** What one more receipt adds to a sale. */
  function Extra(keys: seq<Key>, r: Receipt, after: nat, upTo: nat): nat {
    if after < r.timestamp <= upTo then Worth(keys, r) * r.numberOfItems else 0
  }

  lemma {:induction false} ExtraKey(before: seq<Key>, key: Key, r: Receipt, after: nat, upTo: nat)
    ensures Extra(before + [key], r, after, upTo)
         == Extra(before, r, after, upTo)
            + key.usdcEquivalent * (if Counts(key, r, after, upTo) then r.numberOfItems else 0)
  {
    assert (before + [key])[..|before|] == before;
    Distribute(r.numberOfItems, Worth(before, r), key.usdcEquivalent);
  }

  lemma {:induction false} OneReceipt(keys: seq<Key>, receipts: seq<Receipt>, r: Receipt, after: nat, upTo: nat)
    ensures SaleOf(keys, receipts + [r], after, upTo)
            == SaleOf(keys, receipts, after, upTo) + Extra(keys, r, after, upTo)
  {
    if keys != [] {
      var before, key := keys[..|keys| - 1], keys[|keys| - 1];
      var n := if Counts(key, r, after, upTo) then r.numberOfItems else 0;
      OneReceipt(before, receipts, r, after, upTo);
      ExtraKey(before, key, r, after, upTo);
      assert before + [key] == keys;
      assert ItemsMinted(receipts + [r], key, after, upTo) == ItemsMinted(receipts, key, after, upTo) + n by {
        assert (receipts + [r])[..|receipts|] == receipts;
      }
      Distribute(key.usdcEquivalent, ItemsMinted(receipts, key, after, upTo), n);
    }
  }

  /** The loop over keys computes the value of the receipts: the two sums can be exchanged. */
  lemma {:induction false} SaleIsValue(keys: seq<Key>, receipts: seq<Receipt>, after: nat, upTo: nat)
    ensures SaleOf(keys, receipts, after, upTo) == ValueOf(keys, receipts, after, upTo)
  {
    if receipts == [] {
      NoReceipts(keys, after, upTo);
    } else {
      SaleIsValue(keys, receipts[..|receipts| - 1], after, upTo);
      OneReceipt(keys, receipts[..|receipts| - 1], receipts[|receipts| - 1], after, upTo);
      assert receipts == receipts[..|receipts| - 1] + [receipts[|receipts| - 1]];
    }
  }

  lemma {:induction false} NoReceipts(keys: seq<Key>, after: nat, upTo: nat)
    ensures SaleOf(keys, [], after, upTo) == 0
  {
    if keys != [] {
      NoReceipts(keys[..|keys| - 1], after, upTo);
    }
  }

  /** No two keys name the same machine and label. */
  ghost predicate UniqueKeys(keys: seq<Key>) {
    forall i, j :: 0 <= i < j < |keys| ==>
      keys[i].machine != keys[j].machine || keys[i].groupLabel != keys[j].groupLabel
  }

  lemma {:induction false} WorthOfNone(keys: seq<Key>, r: Receipt)
    requires forall key :: key in keys ==> r.machine != key.machine || r.groupLabel != key.groupLabel
    ensures Worth(keys, r) == 0
  {
    if keys != [] {
      WorthOfNone(keys[..|keys| - 1], r);
    }
  }

  /** With unique labels a receipt is counted once, at the price of its own setting. */
  lemma {:induction false} CountedOnce(keys: seq<Key>, r: Receipt, k: nat)
    requires UniqueKeys(keys) && k < |keys| && keys[k].machine == r.machine && keys[k].groupLabel == r.groupLabel
    ensures Worth(keys, r) == keys[k].usdcEquivalent
  {
    var n := |keys| - 1;
    if k == n {
      WorthOfNone(keys[..n], r);
    } else {
      CountedOnce(keys[..n], r, k);
    }
  }

  /** Machine addresses are primary keys, and labels are unique within a machine. */
  ghost predicate LabelsUnique(machines: seq<Machine>) {
    && (forall i, j :: 0 <= i < j < |machines| ==> machines[i].address != machines[j].address)
    && (forall m, i, j :: m in machines && 0 <= i < j < |m.settings| ==>
          m.settings[i].groupLabel != m.settings[j].groupLabel)
  }

  lemma {:induction false} MachineKeyAt(address: string, settings: seq<Setting>, k: nat)
    requires k < |MachineKeys(address, settings)|
    ensures |MachineKeys(address, settings)| == |settings|
    ensures MachineKeys(address, settings)[k] == Key(address, settings[k].groupLabel, settings[k].usdcEquivalent)
  {
    var n := |settings| - 1;
    if k < |MachineKeys(address, settings[..n])| {
      MachineKeyAt(address, settings[..n], k);
    } else if n > 0 {
      MachineKeyAt(address, settings[..n], 0);
    }
  }

  /** Key by key: the settings of the machines not deleted before the last midnight, and of those never deleted if the
      filter lets them through. */
  lemma {:induction false} KeysExactly(machines: seq<Machine>, lastMidnight: nat, nullMatches: bool, key: Key)
    ensures key in Keys(machines, lastMidnight, nullMatches)
            <==> exists m, s :: && m in machines && s in m.settings
                                && (if m.deletedAt.Some? then m.deletedAt.value >= lastMidnight else nullMatches)
                                && key == Key(m.address, s.groupLabel, s.usdcEquivalent)
  {
    if machines != [] {
      var before, m := machines[..|machines| - 1], machines[|machines| - 1];
      KeysExactly(before, lastMidnight, nullMatches, key);
      MachineKeysExactly(m.address, m.settings, key);
      assert forall n :: n in machines <==> n in before || n == m;
    }
  }

  lemma {:induction false} MachineKeysExactly(address: string, settings: seq<Setting>, key: Key)
    ensures key in MachineKeys(address, settings)
            <==> exists s :: s in settings && key == Key(address, s.groupLabel, s.usdcEquivalent)
  {
    if settings != [] {
      var before, last := settings[..|settings| - 1], settings[|settings| - 1];
      MachineKeysExactly(address, before, key);
      assert forall s :: s in settings <==> s in before || s == last;
    }
  }

  lemma {:induction false} KeyMachines(machines: seq<Machine>, lastMidnight: nat, nullMatches: bool)
    ensures forall key :: key in Keys(machines, lastMidnight, nullMatches) ==>
              exists m :: m in machines && m.address == key.machine
  {
    if machines != [] {
      var before, m := machines[..|machines| - 1], machines[|machines| - 1];
      KeyMachines(before, lastMidnight, nullMatches);
      var own := MachineKeys(m.address, m.settings);
      forall k | 0 <= k < |own| ensures own[k].machine == m.address {
        MachineKeyAt(m.address, m.settings, k);
      }
      assert m in machines;
    }
  }

  lemma {:induction false} KeysAreUnique(machines: seq<Machine>, lastMidnight: nat, nullMatches: bool)
    requires LabelsUnique(machines)
    ensures UniqueKeys(Keys(machines, lastMidnight, nullMatches))
  {
    if machines != [] {
      var before, m := machines[..|machines| - 1], machines[|machines| - 1];
      KeysAreUnique(before, lastMidnight, nullMatches);
      KeyMachines(before, lastMidnight, nullMatches);
      var earlier, own := Keys(before, lastMidnight, nullMatches), MachineKeys(m.address, m.settings);
      forall k | 0 <= k < |own|
        ensures |own| == |m.settings|
        ensures own[k] == Key(m.address, m.settings[k].groupLabel, m.settings[k].usdcEquivalent)
      {
        MachineKeyAt(m.address, m.settings, k);
      }
      assert m in machines;
      forall k | 0 <= k < |earlier| ensures earlier[k].machine != m.address {
        assert earlier[k] in earlier;
        var other :| other in before && other.address == earlier[k].machine;
      }
    }
  }

  // ---------- the snapshots of a run of days ----------

  ghost predicate Ordered(midnights: seq<nat>) {
    forall i, j :: 0 <= i < j < |midnights| ==> midnights[i] <= midnights[j]
  }

  function SumOfDays(machines: seq<Machine>, receipts: seq<Receipt>, midnights: seq<nat>, nullMatches: bool): nat {
    var n := |midnights|;
    if n <= 1 then 0
    else SumOfDays(machines, receipts, midnights[..n - 1], nullMatches)
           + PrimarySaleOn(machines, receipts, midnights[n - 2], midnights[n - 1], nullMatches)
  }

  /** A deleted machine sells nothing more. */
  ghost predicate NoneAfterDeletion(machines: seq<Machine>, receipts: seq<Receipt>) {
    forall m, r :: m in machines && r in receipts && r.machine == m.address && m.deletedAt.Some? ==>
      r.timestamp <= m.deletedAt.value
  }

  lemma {:induction false} NoneMinted(receipts: seq<Receipt>, key: Key, after: nat, upTo: nat)
    requires forall r :: r in receipts && r.machine == key.machine ==> r.timestamp <= after
    ensures ItemsMinted(receipts, key, after, upTo) == 0
  {
    if receipts != [] {
      NoneMinted(receipts[..|receipts| - 1], key, after, upTo);
    }
  }

  lemma {:induction false} NoSales(address: string, settings: seq<Setting>, receipts: seq<Receipt>, after: nat,
          upTo: nat)
    requires forall r :: r in receipts && r.machine == address ==> r.timestamp <= after
    ensures SaleOf(MachineKeys(address, settings), receipts, after, upTo) == 0
  {
    if settings != [] {
      NoSales(address, settings[..|settings| - 1], receipts, after, upTo);
      var keys := MachineKeys(address, settings);
      assert keys[..|keys| - 1] == MachineKeys(address, settings[..|settings| - 1]);
      NoneMinted(receipts, keys[|keys| - 1], after, upTo);
    }
  }

  lemma {:induction false} SaleConcat(a: seq<Key>, b: seq<Key>, receipts: seq<Receipt>, after: nat, upTo: nat)
    ensures SaleOf(a + b, receipts, after, upTo) == SaleOf(a, receipts, after, upTo) + SaleOf(b, receipts, after, upTo)
  {
    if b == [] {
      assert a + b == a;
    } else {
      SaleConcat(a, b[..|b| - 1], receipts, after, upTo);
      assert (a + b)[..|a + b| - 1] == a + b[..|b| - 1];
    }
  }

  /** Leaving out machines deleted before the window changes nothing. */
  lemma {:induction false} FilterIsHarmless(machines: seq<Machine>, receipts: seq<Receipt>, after: nat, upTo: nat,
          nullMatches: bool)
    requires NoneAfterDeletion(machines, receipts)
    ensures PrimarySaleOn(machines, receipts, after, upTo, nullMatches)
            == SaleOf(Keys(machines, 0, nullMatches), receipts, after, upTo)
  {
    if machines != [] {
      var before, m := machines[..|machines| - 1], machines[|machines| - 1];
      FilterIsHarmless(before, receipts, after, upTo, nullMatches);
      var own := MachineKeys(m.address, m.settings);
      SaleConcat(Keys(before, after, nullMatches), own, receipts, after, upTo);
      SaleConcat(Keys(before, 0, nullMatches), own, receipts, after, upTo);
      if m.deletedAt.Some? && m.deletedAt.value < after {
        assert m in machines;
        NoSales(m.address, m.settings, receipts, after, upTo);
      }
      assert Keys(before, after, nullMatches) + [] == Keys(before, after, nullMatches);
      assert Keys(before, 0, nullMatches) + [] == Keys(before, 0, nullMatches);
    }
  }

  /** Over any run of consecutive midnights, with machines and settings fixed, the daily sales add up to the
      value of all receipts of the interval: none is lost at a midnight, none counted twice. */
  lemma {:induction false} SnapshotsAddUp(machines: seq<Machine>, receipts: seq<Receipt>, midnights: seq<nat>,
          nullMatches: bool)
    requires midnights != [] && Ordered(midnights) && NoneAfterDeletion(machines, receipts)
    ensures SumOfDays(machines, receipts, midnights, nullMatches)
         == ValueOf(Keys(machines, 0, nullMatches), receipts, midnights[0], midnights[|midnights| - 1])
  {
    var keys, n := Keys(machines, 0, nullMatches), |midnights|;
    if n == 1 {
      EmptyInterval(keys, receipts, midnights[0]);
    } else {
      SnapshotsAddUp(machines, receipts, midnights[..n - 1], nullMatches);
      FilterIsHarmless(machines, receipts, midnights[n - 2], midnights[n - 1], nullMatches);
      SaleSplit(keys, receipts, midnights[0], midnights[n - 2], midnights[n - 1]);
      SaleIsValue(keys, receipts, midnights[0], midnights[n - 2]);
      SaleIsValue(keys, receipts, midnights[0], midnights[n - 1]);
    }
  }

  lemma {:induction false} EmptyInterval(keys: seq<Key>, receipts: seq<Receipt>, t: nat)
    ensures ValueOf(keys, receipts, t, t) == 0
  {
    if receipts != [] {
      EmptyInterval(keys, receipts[..|receipts| - 1], t);
    }
  }

  // ---------- each receipt at its own setting's price ----------

  function SettingPrice(settings: seq<Setting>, groupLabel: string): nat {
    if settings == [] then 0
    else if settings[|settings| - 1].groupLabel == groupLabel then settings[|settings| - 1].usdcEquivalent
    else SettingPrice(settings[..|settings| - 1], groupLabel)
  }

  /** The price of the one setting of the receipt's machine with the receipt's label; nothing when the machine is
      not indexed or has no such setting. */
  function OwnPrice(machines: seq<Machine>, r: Receipt, nullMatches: bool): nat {
    if machines == [] then 0
    else
      var m := machines[|machines| - 1];
      if m.address == r.machine then
        if m.deletedAt.None? && !nullMatches then 0 else SettingPrice(m.settings, r.groupLabel)
      else OwnPrice(machines[..|machines| - 1], r, nullMatches)
  }

  /** The value of an interval's receipts, each at its own price. */
  function OwnValue(machines: seq<Machine>, receipts: seq<Receipt>, after: nat, upTo: nat, nullMatches: bool): nat {
    if receipts == [] then 0
    else
      var r := receipts[|receipts| - 1];
      OwnValue(machines, receipts[..|receipts| - 1], after, upTo, nullMatches)
      + (if after < r.timestamp <= upTo then OwnPrice(machines, r, nullMatches) * r.numberOfItems else 0)
  }

  lemma {:induction false} WorthConcat(a: seq<Key>, b: seq<Key>, r: Receipt)
    ensures Worth(a + b, r) == Worth(a, r) + Worth(b, r)
  {
    if b == [] {
      assert a + b == a;
    } else {
      WorthConcat(a, b[..|b| - 1], r);
      assert (a + b)[..|a + b| - 1] == a + b[..|b| - 1];
    }
  }

  lemma {:induction false} MachineWorth(address: string, settings: seq<Setting>, r: Receipt)
    requires forall i, j :: 0 <= i < j < |settings| ==> settings[i].groupLabel != settings[j].groupLabel
    ensures Worth(MachineKeys(address, settings), r)
            == if address == r.machine then SettingPrice(settings, r.groupLabel) else 0
    ensures (forall s :: s in settings ==> s.groupLabel != r.groupLabel) ==> SettingPrice(settings, r.groupLabel) == 0
  {
    if settings != [] {
      var before, last := settings[..|settings| - 1], settings[|settings| - 1];
      MachineWorth(address, before, r);
      var keys := MachineKeys(address, settings);
      assert keys[..|keys| - 1] == MachineKeys(address, before);
      if last.groupLabel == r.groupLabel {
        forall s | s in before ensures s.groupLabel != r.groupLabel {
          var i :| 0 <= i < |before| && before[i] == s;
          assert settings[i] == s;
        }
      }
    }
  }

  lemma {:induction false} WorthElsewhere(machines: seq<Machine>, r: Receipt, lastMidnight: nat, nullMatches: bool)
    requires forall m :: m in machines ==> m.address != r.machine
    ensures Worth(Keys(machines, lastMidnight, nullMatches), r) == 0
  {
    KeyMachines(machines, lastMidnight, nullMatches);
    WorthOfNone(Keys(machines, lastMidnight, nullMatches), r);
  }

  /** With unique labels the sum over all matching keys is the price of the receipt's own setting. */
  lemma {:induction false} WorthIsOwnPrice(machines: seq<Machine>, r: Receipt, nullMatches: bool)
    requires LabelsUnique(machines)
    ensures Worth(Keys(machines, 0, nullMatches), r) == OwnPrice(machines, r, nullMatches)
  {
    if machines != [] {
      var before, m := machines[..|machines| - 1], machines[|machines| - 1];
      assert m in machines;
      OneMoreMachine(before, m, r, nullMatches);
      MachineWorth(m.address, m.settings, r);
      assert before + [m] == machines;
      if m.address == r.machine {
        forall other | other in before ensures other.address != r.machine {
          var i :| 0 <= i < |before| && before[i] == other;
          assert machines[i] == other;
        }
        WorthElsewhere(before, r, 0, nullMatches);
      } else {
        WorthIsOwnPrice(before, r, nullMatches);
      }
    }
  }

  lemma {:induction false} OneMoreMachine(before: seq<Machine>, m: Machine, r: Receipt, nullMatches: bool)
    ensures Worth(Keys(before + [m], 0, nullMatches), r)
         == Worth(Keys(before, 0, nullMatches), r)
            + if m.deletedAt.None? && !nullMatches then 0 else Worth(MachineKeys(m.address, m.settings), r)
  {
    assert (before + [m])[..|before|] == before;
    WorthConcat(Keys(before, 0, nullMatches), MachineKeys(m.address, m.settings), r);
    assert Keys(before, 0, nullMatches) + [] == Keys(before, 0, nullMatches);
  }

  lemma {:induction false} ValueIsOwnValue(machines: seq<Machine>, receipts: seq<Receipt>, after: nat, upTo: nat,
          nullMatches: bool)
    requires LabelsUnique(machines)
    ensures ValueOf(Keys(machines, 0, nullMatches), receipts, after, upTo)
            == OwnValue(machines, receipts, after, upTo, nullMatches)
  {
    if receipts != [] {
      ValueIsOwnValue(machines, receipts[..|receipts| - 1], after, upTo, nullMatches);
      WorthIsOwnPrice(machines, receipts[|receipts| - 1], nullMatches);
    }
  }

  /** The daily sales of any run of consecutive midnights add up to all receipts of the interval, each counted
      once and at the price of its own setting. */
  lemma {:induction false} SnapshotsCountOnce(machines: seq<Machine>, receipts: seq<Receipt>, midnights: seq<nat>,
          nullMatches: bool)
    requires midnights != [] && Ordered(midnights) && NoneAfterDeletion(machines, receipts) && LabelsUnique(machines)
    ensures SumOfDays(machines, receipts, midnights, nullMatches)
         == OwnValue(machines, receipts, midnights[0], midnights[|midnights| - 1], nullMatches)
  {
    SnapshotsAddUp(machines, receipts, midnights, nullMatches);
    ValueIsOwnValue(machines, receipts, midnights[0], midnights[|midnights| - 1], nullMatches);
  }
}

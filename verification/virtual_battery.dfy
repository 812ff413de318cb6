/**
 * The Victron side (victron/VirtualBatteryService.kt): the latest snapshot
 * of every pack, and the one virtual battery published from the packs
 * that reported recently: aggregate values, alarms, and the charge and
 * discharge limits.
 *
 * Configuration is a parameter (`Config`, with the source's defaults in
 * `DefaultConfig`); the clock is the parameter `now`, in seconds.
 */
module VirtualBattery {
  import opened Wrappers
  import opened BmsTypes
  import opened RealStats
  import opened Collections

  /** The settings read from the persistence service. */
  datatype Config = Config(
    bmsOfflineAfterSeconds: int,
    numberOfCells: int,
    maxChargeCurrent: real,
    maxChargeTemp: int,
    minChargeTemp: int,
    maxCellVoltageCharge: real,
    maxCellVoltageCutOff: real,
    maxDischargeCurrent: real,
    minCellVoltage: real,
    minDischargeTemp: int,
    maxDischargeTemp: int,
    minDischargeSoC: int)

  /** The defaults the source falls back to when a setting is missing. */
  const DefaultConfig := Config(
    bmsOfflineAfterSeconds := 60,
    numberOfCells := 16,
    maxChargeCurrent := 210.0,
    maxChargeTemp := 45,
    minChargeTemp := 5,
    maxCellVoltageCharge := 3.4,
    maxCellVoltageCutOff := 3.55,
    maxDischargeCurrent := 380.0,
    minCellVoltage := 2.70,
    minDischargeTemp := -10,
    maxDischargeTemp := 45,
    minDischargeSoC := 10)

  /** The real-valued fields of a snapshot that are summed, averaged or compared. */
  datatype Field = Voltage | Current | Soc | AvgEstimatedSoc | MaxCellVoltage | MinCellVoltage | RemainingCapacity

  function Get(d: BmsData, f: Field): real {
    match f
    case Voltage => d.voltage
    case Current => d.current
    case Soc => d.soc
    case AvgEstimatedSoc => d.avgEstimatedSoc
    case MaxCellVoltage => d.maxCellVoltage
    case MinCellVoltage => d.minCellVoltage
    case RemainingCapacity => d.remainingCapacity
  }

  /** The whole-number fields of a snapshot that are summed or compared. */
  datatype IntField = MaxTemp | MinTemp | Cycles | Capacity

  function GetInt(d: BmsData, f: IntField): int {
    match f
    case MaxTemp => d.maxTemp
    case MinTemp => d.minTemp
    case Cycles => d.cycles
    case Capacity => d.bmsId.capacity
  }

  /** `map { it.f }`: field `f` of every snapshot, in order. */
  function Values(bs: seq<BmsData>, f: Field): (r: seq<real>)
    ensures |r| == |bs| && forall i :: 0 <= i < |bs| ==> r[i] == Get(bs[i], f)
  {
    seq(|bs|, i requires 0 <= i < |bs| => Get(bs[i], f))
  }

  function IntValues(bs: seq<BmsData>, f: IntField): (r: seq<int>)
    ensures |r| == |bs| && forall i :: 0 <= i < |bs| ==> r[i] == GetInt(bs[i], f)
  {
    seq(|bs|, i requires 0 <= i < |bs| => GetInt(bs[i], f))
  }

  /** The exact sum of whole numbers, added front to back. */
  function SumInt(xs: seq<int>): int {
    if xs == [] then 0 else SumInt(xs[..|xs| - 1]) + xs[|xs| - 1]
  }

  /** A whole number cut to a Kotlin `Int`: its low 32 bits, read as two's complement. */
  function Wrap32(x: int): (r: int)
    ensures -0x8000_0000 <= r < 0x8000_0000
    ensures (r - x) % 0x1_0000_0000 == 0
  {
    var m := x % 0x1_0000_0000;
    if m >= 0x8000_0000 then m - 0x1_0000_0000 else m
  }

  /** Only the value modulo 2^32 matters to the cut. */
  lemma WrapShift(x: int, k: int)
    ensures Wrap32(x + k * 0x1_0000_0000) == Wrap32(x)
  {
    assert (x + k * 0x1_0000_0000) % 0x1_0000_0000 == x % 0x1_0000_0000;
  }

  /** `sumOf` over `Int`: every addition wraps to 32 bits. */
  function IntSumOf(xs: seq<int>): int {
    if xs == [] then 0 else Wrap32(IntSumOf(xs[..|xs| - 1]) + xs[|xs| - 1])
  }

  /** Wrapping at every step gives the exact sum cut to 32 bits once, and so the exact sum whenever that fits an `Int`. */
  lemma {:induction false} IntSumOfWraps(xs: seq<int>)
    ensures IntSumOf(xs) == Wrap32(SumInt(xs))
    ensures -0x8000_0000 <= SumInt(xs) < 0x8000_0000 ==> IntSumOf(xs) == SumInt(xs)
  {
    if xs != [] {
      var init, last := xs[..|xs| - 1], xs[|xs| - 1];
      IntSumOfWraps(init);
      var w := IntSumOf(init);
      var k := (w - SumInt(init)) / 0x1_0000_0000;
      assert w + last == SumInt(xs) + k * 0x1_0000_0000;
      WrapShift(SumInt(xs), k);
    }
    if -0x8000_0000 <= SumInt(xs) < 0x8000_0000 {
      assert SumInt(xs) % 0x1_0000_0000 == if SumInt(xs) >= 0 then SumInt(xs) else SumInt(xs) + 0x1_0000_0000;
    }
  }

  /** `maxBy`: the index of the first largest element. */
  function FirstMaxIndex(xs: seq<real>): (k: nat)
    requires xs != []
    ensures k < |xs| && forall i :: 0 <= i < |xs| ==> xs[i] <= xs[k]
    ensures forall i :: 0 <= i < k ==> xs[i] < xs[k]
  {
    if |xs| == 1 then 0
    else
      var k := FirstMaxIndex(xs[..|xs| - 1]);
      assert forall i :: 0 <= i < |xs| - 1 ==> xs[..|xs| - 1][i] == xs[i];
      if xs[k] < xs[|xs| - 1] then |xs| - 1 else k
  }

  /** `minBy`: the index of the first smallest element. */
  function FirstMinIndex(xs: seq<real>): (k: nat)
    requires xs != []
    ensures k < |xs| && forall i :: 0 <= i < |xs| ==> xs[k] <= xs[i]
    ensures forall i :: 0 <= i < k ==> xs[k] < xs[i]
  {
    if |xs| == 1 then 0
    else
      var k := FirstMinIndex(xs[..|xs| - 1]);
      assert forall i :: 0 <= i < |xs| - 1 ==> xs[..|xs| - 1][i] == xs[i];
      if xs[|xs| - 1] < xs[k] then |xs| - 1 else k
  }

  /** `maxBy` and `minBy` pick an element carrying `maxOf` and `minOf`. */
  lemma ExtremesAgree(xs: seq<real>)
    requires xs != []
    ensures xs[FirstMaxIndex(xs)] == MaxOf(xs) && xs[FirstMinIndex(xs)] == MinOf(xs)
  {
    var m := MaxOf(xs);
    var i :| 0 <= i < |xs| && xs[i] == m;
    var n := MinOf(xs);
    var j :| 0 <= j < |xs| && xs[j] == n;
  }

  // ---------------------------------------------------------------------
  // The latest snapshot of every pack

  /** The `forEach` of `onBmsDataLocked`: every snapshot of the batch stored in turn. */
  function ApplyBatch(known: map<BmsId, BmsData>, order: seq<BmsId>, batch: seq<BmsData>)
    : (r: (map<BmsId, BmsData>, seq<BmsId>))
    requires Ordered(known, order)
    ensures Ordered(r.0, r.1)
    decreases |batch|
  {
    if batch == [] then (known, order)
    else
      var (k, o) := Put(known, order, batch[0].bmsId, batch[0]);
      ApplyBatch(k, o, batch[1..])
  }

  /** Some snapshot of the batch is for pack `id`. */
  predicate Mentions(batch: seq<BmsData>, id: BmsId) {
    exists j :: 0 <= j < |batch| && batch[j].bmsId == id
  }

  /** A batch mentions a pack iff its head is for it or its tail mentions it. */
  lemma MentionsCons(batch: seq<BmsData>, id: BmsId)
    requires batch != []
    ensures Mentions(batch, id) <==> batch[0].bmsId == id || Mentions(batch[1..], id)
  {
    if Mentions(batch, id) && batch[0].bmsId != id {
      var j :| 0 <= j < |batch| && batch[j].bmsId == id;
      assert batch[1..][j - 1].bmsId == id;
    }
    if Mentions(batch[1..], id) {
      var j :| 0 <= j < |batch| - 1 && batch[1..][j].bmsId == id;
      assert batch[j + 1].bmsId == id;
    }
  }

  /** Known packs stay known and every pack of the batch becomes known; no entry is removed. */
  lemma {:induction false} ApplyBatchKeys(known: map<BmsId, BmsData>, order: seq<BmsId>, batch: seq<BmsData>, id: BmsId)
    requires Ordered(known, order)
    ensures id in ApplyBatch(known, order, batch).0 <==> id in known || Mentions(batch, id)
    decreases |batch|
  {
    if batch != [] {
      var (k, o) := Put(known, order, batch[0].bmsId, batch[0]);
      ApplyBatchKeys(k, o, batch[1..], id);
      MentionsCons(batch, id);
    }
  }

  /** A pack the batch does not mention keeps its snapshot. */
  lemma {:induction false} ApplyBatchUntouched(known: map<BmsId, BmsData>, order: seq<BmsId>, batch: seq<BmsData>, id: BmsId)
    requires Ordered(known, order) && id in known
    requires forall j :: 0 <= j < |batch| ==> batch[j].bmsId != id
    ensures id in ApplyBatch(known, order, batch).0
    ensures ApplyBatch(known, order, batch).0[id] == known[id]
    decreases |batch|
  {
    if batch != [] {
      var (k, o) := Put(known, order, batch[0].bmsId, batch[0]);
      assert forall j :: 0 <= j < |batch| - 1 ==> batch[1..][j] == batch[j + 1];
      ApplyBatchUntouched(k, o, batch[1..], id);
    }
  }

  /** A pack the batch mentions ends with its last snapshot in the batch. */
  lemma {:induction false} ApplyBatchLastWins(known: map<BmsId, BmsData>, order: seq<BmsId>, batch: seq<BmsData>, j: nat)
    requires Ordered(known, order) && j < |batch|
    requires forall l :: j < l < |batch| ==> batch[l].bmsId != batch[j].bmsId
    ensures batch[j].bmsId in ApplyBatch(known, order, batch).0
    ensures ApplyBatch(known, order, batch).0[batch[j].bmsId] == batch[j]
    decreases |batch|
  {
    var (k, o) := Put(known, order, batch[0].bmsId, batch[0]);
    var rest := batch[1..];
    assert forall l :: 0 <= l < |rest| ==> rest[l] == batch[l + 1];
    if j == 0 {
      ApplyBatchUntouched(k, o, rest, batch[0].bmsId);
    } else {
      ApplyBatchLastWins(k, o, rest, j - 1);
    }
  }

  /** `knownBmsData.values`, in insertion order. */
  function Snapshots(known: map<BmsId, BmsData>, order: seq<BmsId>): (r: seq<BmsData>)
    requires Ordered(known, order)
    ensures |r| == |order| && forall i :: 0 <= i < |order| ==> r[i] == known[order[i]]
  {
    seq(|order|, i requires 0 <= i < |order| => known[order[i]])
  }

  // ---------------------------------------------------------------------
  // Online and offline packs

  /** `timestamp.isAfter(now.minusSeconds(bmsOfflineAfterSeconds))`: the setting is a whole number of seconds, the instants are reals. */
  predicate IsOnline(d: BmsData, now: real, cfg: Config) {
    d.timestamp > now - cfg.bmsOfflineAfterSeconds as real
  }

  function Online(packs: seq<BmsData>, now: real, cfg: Config): seq<BmsData> {
    Filter(packs, (d: BmsData) => IsOnline(d, now, cfg))
  }

  function Offline(packs: seq<BmsData>, now: real, cfg: Config): seq<BmsData> {
    Filter(packs, (d: BmsData) => !IsOnline(d, now, cfg))
  }

  /** Online and offline packs partition the known packs. */
  lemma OnlineOfflinePartition(packs: seq<BmsData>, now: real, cfg: Config, d: BmsData)
    ensures |Online(packs, now, cfg)| + |Offline(packs, now, cfg)| == |packs|
    ensures d in Online(packs, now, cfg) <==> d in packs && d.timestamp > now - cfg.bmsOfflineAfterSeconds as real
    ensures d in Offline(packs, now, cfg) <==> d in packs && d.timestamp <= now - cfg.bmsOfflineAfterSeconds as real
  {
    PartitionSizes(packs, (x: BmsData) => IsOnline(x, now, cfg), (x: BmsData) => !IsOnline(x, now, cfg));
    FilterMembers(packs, (x: BmsData) => IsOnline(x, now, cfg), d);
    FilterMembers(packs, (x: BmsData) => !IsOnline(x, now, cfg), d);
  }

  /** No pack is online iff the online list is empty. */
  lemma NoneOnline(packs: seq<BmsData>, now: real, cfg: Config)
    ensures Online(packs, now, cfg) == [] <==> forall i :: 0 <= i < |packs| ==> !IsOnline(packs[i], now, cfg)
  {
    if Online(packs, now, cfg) == [] {
      forall i | 0 <= i < |packs| ensures !IsOnline(packs[i], now, cfg) {
        FilterMembers(packs, (d: BmsData) => IsOnline(d, now, cfg), packs[i]);
      }
    } else if forall i :: 0 <= i < |packs| ==> !IsOnline(packs[i], now, cfg) {
      NothingAllowed(packs, (d: BmsData) => IsOnline(d, now, cfg));
    }
  }

  // ---------------------------------------------------------------------
  // Charge and discharge limits

  datatype ChargeParams = ChargeParams(
    maxChargeVoltage: real, maxChargeCurrent: real, allowToCharge: bool, nrOfModulesBlockingCharge: int)

  datatype DischargeParams = DischargeParams(
    maxDischargeCurrent: real, allowToDischarge: bool, nrOfModulesBlockingDischarge: int)

  datatype ControlParams = ControlParams(chargeParams: ChargeParams, dischargeParams: DischargeParams)

  /** A pack allows charging: its highest temperature in range (inclusive), charge MOSFET on, no cell above the cut-off. */
  predicate AllowsCharging(d: BmsData, cfg: Config) {
    && cfg.minChargeTemp <= d.maxTemp <= cfg.maxChargeTemp
    && d.mosfetCharging
    && d.maxCellVoltage <= cfg.maxCellVoltageCutOff
  }

  /**
   * `calculateChargeParams`: charging is allowed, at the configured
   * current, only when no online pack blocks it. The charge voltage is
   * `maxCellVoltageCharge` per cell either way.
   */
  function ChargeParamsOf(online: seq<BmsData>, cfg: Config): (r: ChargeParams)
    ensures 0 <= r.nrOfModulesBlockingCharge <= |online|
    ensures r.nrOfModulesBlockingCharge == |Filter(online, (d: BmsData) => !AllowsCharging(d, cfg))|
    ensures r.maxChargeVoltage == cfg.maxCellVoltageCharge * cfg.numberOfCells as real
    ensures r.allowToCharge <==> forall i :: 0 <= i < |online| ==> AllowsCharging(online[i], cfg)
    ensures r.allowToCharge ==> r.maxChargeCurrent == cfg.maxChargeCurrent && r.nrOfModulesBlockingCharge == 0
    ensures !r.allowToCharge ==> r.maxChargeCurrent == 0.0 && r.nrOfModulesBlockingCharge > 0
  {
    var allowing := Filter(online, (d: BmsData) => AllowsCharging(d, cfg));
    var blocking := |online| - |allowing|;
    FilterKeepsAll(online, (d: BmsData) => AllowsCharging(d, cfg));
    PartitionSizes(online, (d: BmsData) => AllowsCharging(d, cfg), (d: BmsData) => !AllowsCharging(d, cfg));
    var voltage := cfg.maxCellVoltageCharge * cfg.numberOfCells as real;
    if blocking > 0 then ChargeParams(voltage, 0.0, false, blocking)
    else ChargeParams(voltage, cfg.maxChargeCurrent, true, 0)
  }

  /**
   * A pack allows discharging: its highest temperature in range
   * (inclusive), discharge MOSFET on, no cell below the floor, and the
   * average state of charge of all online packs above the minimum.
   */
  predicate AllowsDischarging(d: BmsData, cfg: Config, soc: real) {
    && cfg.minDischargeTemp <= d.maxTemp <= cfg.maxDischargeTemp
    && d.mosfetDischarging
    && d.minCellVoltage >= cfg.minCellVoltage
    && soc > cfg.minDischargeSoC as real
  }

  /** `calculateDischargeParams`: discharging is allowed, at the configured current, only when no online pack blocks it. */
  function DischargeParamsOf(online: seq<BmsData>, cfg: Config): (r: DischargeParams)
    ensures 0 <= r.nrOfModulesBlockingDischarge <= |online|
    ensures r.nrOfModulesBlockingDischarge
            == |Filter(online, (d: BmsData) => !AllowsDischarging(d, cfg, Average(Values(online, Soc))))|
    ensures r.allowToDischarge <==>
      forall i :: 0 <= i < |online| ==> AllowsDischarging(online[i], cfg, Average(Values(online, Soc)))
    ensures r.allowToDischarge ==> r.maxDischargeCurrent == cfg.maxDischargeCurrent && r.nrOfModulesBlockingDischarge == 0
    ensures !r.allowToDischarge ==> r.maxDischargeCurrent == 0.0 && r.nrOfModulesBlockingDischarge > 0
  {
    var soc := Average(Values(online, Soc));
    var allowing := Filter(online, (d: BmsData) => AllowsDischarging(d, cfg, soc));
    var blocking := |online| - |allowing|;
    FilterKeepsAll(online, (d: BmsData) => AllowsDischarging(d, cfg, soc));
    PartitionSizes(online, (d: BmsData) => AllowsDischarging(d, cfg, soc),
                   (d: BmsData) => !AllowsDischarging(d, cfg, soc));
    if blocking > 0 then DischargeParams(0.0, false, blocking)
    else DischargeParams(cfg.maxDischargeCurrent, true, 0)
  }

  /** The state-of-charge test is the same for every pack: a low average blocks every online pack. */
  lemma LowSocBlocksAll(online: seq<BmsData>, cfg: Config)
    requires online != [] && Average(Values(online, Soc)) <= cfg.minDischargeSoC as real
    ensures var r := DischargeParamsOf(online, cfg);
      r.nrOfModulesBlockingDischarge == |online| && !r.allowToDischarge && r.maxDischargeCurrent == 0.0
  {
    var soc := Average(Values(online, Soc));
    NothingAllowed(online, (d: BmsData) => AllowsDischarging(d, cfg, soc));
  }

  // ---------------------------------------------------------------------
  // The published battery

  /** The aggregate values of `republishTotal`, over the online packs. */
  datatype Aggregate = Aggregate(
    minBatteryVoltage: real,
    capacityRemaining: real,
    installedCapacity: int,
    consumedAmphours: real,
    soc: real,
    estimatedSoc: real,
    voltage: real,
    current: real,
    power: real,
    maxTemperature: int,
    minTemperature: int,
    maxCellVoltage: real,
    maxVoltageCellId: int,
    minCellVoltage: real,
    minVoltageCellId: int,
    chargeCycles: int,
    cellDelta: real)

  /** The index of the online pack `maxBy { it.maxCellVoltage }` picks: it carries the highest cell voltage. */
  function HighestCell(online: seq<BmsData>): (k: nat)
    requires online != []
    ensures k < |online| && online[k].maxCellVoltage == MaxOf(Values(online, MaxCellVoltage))
    ensures forall i :: 0 <= i < |online| ==> online[i].maxCellVoltage <= online[k].maxCellVoltage
  {
    var xs := Values(online, MaxCellVoltage);
    ExtremesAgree(xs);
    assert forall i :: 0 <= i < |online| ==> xs[i] == online[i].maxCellVoltage;
    FirstMaxIndex(xs)
  }

  /** The index of the online pack `minBy { it.minCellVoltage }` picks: it carries the lowest cell voltage. */
  function LowestCell(online: seq<BmsData>): (k: nat)
    requires online != []
    ensures k < |online| && online[k].minCellVoltage == MinOf(Values(online, MinCellVoltage))
    ensures forall i :: 0 <= i < |online| ==> online[k].minCellVoltage <= online[i].minCellVoltage
  {
    var xs := Values(online, MinCellVoltage);
    ExtremesAgree(xs);
    assert forall i :: 0 <= i < |online| ==> xs[i] == online[i].minCellVoltage;
    FirstMinIndex(xs)
  }

  /** `maxOf { f }` over the online packs: attained by one and at least every pack's. */
  function Largest(online: seq<BmsData>, f: IntField): (m: int)
    requires online != []
    ensures exists i :: 0 <= i < |online| && GetInt(online[i], f) == m
    ensures forall i :: 0 <= i < |online| ==> GetInt(online[i], f) <= m
  {
    var xs := seq(|online|, i requires 0 <= i < |online| => GetInt(online[i], f) as real);
    var m := MaxOf(xs);
    var i :| 0 <= i < |xs| && xs[i] == m;
    assert m == GetInt(online[i], f) as real;
    assert forall j :: 0 <= j < |online| ==> GetInt(online[j], f) as real == xs[j] <= m;
    m.Floor
  }

  /** The voltage of `numberOfCells` cells in series at `cellVoltage` each. */
  function BatteryVoltage(cellVoltage: real, numberOfCells: int): real {
    cellVoltage * numberOfCells as real
  }

  /**
   * The aggregates: sums, averages and extremes over the online packs.
   * The "minimum" temperature is the largest of the packs' minimum
   * temperatures, as the source computes it with `maxOf`.
   */
  function AggregateOf(online: seq<BmsData>, numberOfCells: int): (a: Aggregate)
    requires online != []
  {
    var hi := online[HighestCell(online)];
    var lo := online[LowestCell(online)];
    var capacityRemaining := Sum(Values(online, RemainingCapacity));
    var installedCapacity := IntSumOf(IntValues(online, Capacity));
    var voltage := Average(Values(online, Voltage));
    var current := Sum(Values(online, Current));
    Aggregate(
      minBatteryVoltage := BatteryVoltage(lo.minCellVoltage, numberOfCells),
      capacityRemaining := capacityRemaining,
      installedCapacity := installedCapacity,
      consumedAmphours := installedCapacity as real - capacityRemaining,
      soc := Average(Values(online, Soc)),
      estimatedSoc := Average(Values(online, AvgEstimatedSoc)),
      voltage := voltage,
      current := current,
      power := voltage * current,
      maxTemperature := Largest(online, MaxTemp),
      minTemperature := Largest(online, MinTemp),
      maxCellVoltage := hi.maxCellVoltage,
      maxVoltageCellId := hi.maxCellNumber,
      minCellVoltage := lo.minCellVoltage,
      minVoltageCellId := lo.minCellNumber,
      chargeCycles := Largest(online, Cycles),
      cellDelta := hi.maxCellVoltage - lo.minCellVoltage)
  }

  /**
   * The published highest and lowest cell voltages, with their cell
   * numbers, come from one online pack each and bound every online pack's;
   * the cell delta is the highest cell voltage of any pack less the
   * lowest.
   */
  lemma AggregateCells(online: seq<BmsData>, numberOfCells: int)
    requires online != []
    ensures var a := AggregateOf(online, numberOfCells);
      && (exists i :: 0 <= i < |online| && online[i].maxCellVoltage == a.maxCellVoltage
                      && online[i].maxCellNumber == a.maxVoltageCellId)
      && (exists i :: 0 <= i < |online| && online[i].minCellVoltage == a.minCellVoltage
                      && online[i].minCellNumber == a.minVoltageCellId)
      && (forall i :: 0 <= i < |online| ==>
            online[i].maxCellVoltage <= a.maxCellVoltage && a.minCellVoltage <= online[i].minCellVoltage)
      && a.cellDelta == MaxOf(Values(online, MaxCellVoltage)) - MinOf(Values(online, MinCellVoltage))
  {
    var a := AggregateOf(online, numberOfCells);
    var hi, lo := HighestCell(online), LowestCell(online);
    assert a.maxCellVoltage == online[hi].maxCellVoltage && a.maxVoltageCellId == online[hi].maxCellNumber;
    assert a.minCellVoltage == online[lo].minCellVoltage && a.minVoltageCellId == online[lo].minCellNumber;
  }

  /** The minimum battery voltage is the lowest cell voltage of any online pack times the number of cells. */
  lemma MinBatteryVoltage(online: seq<BmsData>, numberOfCells: int)
    requires online != []
    ensures AggregateOf(online, numberOfCells).minBatteryVoltage
            == BatteryVoltage(MinOf(Values(online, MinCellVoltage)), numberOfCells)
  {
    var lo := LowestCell(online);
    assert AggregateOf(online, numberOfCells).minBatteryVoltage
           == BatteryVoltage(online[lo].minCellVoltage, numberOfCells);
  }

  /** The alarm paths: 2 when raised, 0 otherwise. */
  datatype Alarms = Alarms(
    lowVoltage: int, highVoltage: int, lowCellVoltage: int, highCellVoltage: int, lowSoc: int,
    cellImbalance: int, highChargeTemperature: int, lowChargeTemperature: int,
    highTemperature: int, lowTemperature: int, alarm: int, internalFailure: int)

  function Level(raised: bool): int {
    if raised then 2 else 0
  }

  /**
   * The alarms of `republishTotal`. Cell imbalance tolerates 0.2 V
   * between 30 and 90 % state of charge (exclusive) and 0.4 V outside;
   * any offline pack raises the general alarm and the internal failure.
   */
  function AlarmsOf(a: Aggregate, offline: nat): (r: Alarms)
    ensures r.cellImbalance == 2 <==> if 30.0 < a.soc < 90.0 then a.cellDelta > 0.2 else a.cellDelta > 0.4
    ensures r.alarm == r.internalFailure && (r.alarm == 2 <==> offline > 0)
    ensures r.lowVoltage == 2 <==> a.voltage < 44.8
    ensures r.highVoltage == 2 <==> a.voltage > 56.0
    ensures r.lowCellVoltage == 2 <==> a.minCellVoltage < 2.8
    ensures r.highCellVoltage == 2 <==> a.maxCellVoltage > 3.4
    ensures r.lowSoc == 2 <==> a.soc < 10.0
    ensures r.highTemperature == r.highChargeTemperature && (r.highTemperature == 2 <==> a.maxTemperature > 40)
    ensures r.lowTemperature == r.lowChargeTemperature && (r.lowTemperature == 2 <==> a.minTemperature < 10)
  {
    var imbalance := if 90.0 > a.soc && a.soc > 30.0 then a.cellDelta > 0.2 else a.cellDelta > 0.4;
    Alarms(
      lowVoltage := Level(a.voltage < 44.8),
      highVoltage := Level(a.voltage > 56.0),
      lowCellVoltage := Level(a.minCellVoltage < 2.8),
      highCellVoltage := Level(a.maxCellVoltage > 3.4),
      lowSoc := Level(a.soc < 10.0),
      cellImbalance := Level(imbalance),
      highChargeTemperature := Level(a.maxTemperature > 40),
      lowChargeTemperature := Level(a.minTemperature < 10),
      highTemperature := Level(a.maxTemperature > 40),
      lowTemperature := Level(a.minTemperature < 10),
      alarm := Level(offline > 0),
      internalFailure := Level(offline > 0))
  }

  /** What `republishTotal` sends, as values rather than strings. */
  datatype Report = Report(
    numberOfCells: int,
    modulesOnline: nat,
    modulesOffline: nat,
    control: ControlParams,
    aggregate: Aggregate,
    alarms: Alarms,
    bmsData: seq<BmsData>)

  /** `republishTotal`: nothing when no pack is online, otherwise the report over the online packs. */
  function Republish(packs: seq<BmsData>, now: real, cfg: Config): (r: Option<Report>)
    ensures r.None? <==> forall i :: 0 <= i < |packs| ==> !IsOnline(packs[i], now, cfg)
    ensures r.Some? ==> r.value.modulesOnline > 0 && r.value.modulesOnline + r.value.modulesOffline == |packs|
    ensures r.Some? ==> r.value.bmsData == packs
    ensures r.Some? ==> (r.value.alarms.alarm == 2 <==> exists i :: 0 <= i < |packs| && !IsOnline(packs[i], now, cfg))
    ensures r.Some? ==> var online, offline := Online(packs, now, cfg), Offline(packs, now, cfg);
      && r.value.numberOfCells == cfg.numberOfCells
      && r.value.modulesOnline == |online| && r.value.modulesOffline == |offline|
      && r.value.aggregate == AggregateOf(online, cfg.numberOfCells)
      && r.value.control == ControlParams(ChargeParamsOf(online, cfg), DischargeParamsOf(online, cfg))
      && r.value.alarms == AlarmsOf(r.value.aggregate, |offline|)
  {
    var online := Online(packs, now, cfg);
    var offline := Offline(packs, now, cfg);
    NoneOnline(packs, now, cfg);
    if online == [] then None
    else
      OnlineOfflinePartition(packs, now, cfg, packs[0]);
      OfflineWitness(packs, now, cfg);
      var a := AggregateOf(online, cfg.numberOfCells);
      Some(Report(
        numberOfCells := cfg.numberOfCells,
        modulesOnline := |online|,
        modulesOffline := |offline|,
        control := ControlParams(ChargeParamsOf(online, cfg), DischargeParamsOf(online, cfg)),
        aggregate := a,
        alarms := AlarmsOf(a, |offline|),
        bmsData := packs))
  }

  /**
   * An offline pack takes no part in the published values: adding one
   * leaves the online packs, and so the aggregate, the control parameters
   * and every threshold alarm, as they were. It only counts one more
   * offline pack, raises the general alarm and the internal failure, and
   * is attached to the snapshots.
   */
  lemma OfflinePackIgnored(packs: seq<BmsData>, p: BmsData, now: real, cfg: Config)
    requires !IsOnline(p, now, cfg)
    ensures Online(packs + [p], now, cfg) == Online(packs, now, cfg)
    ensures Offline(packs + [p], now, cfg) == Offline(packs, now, cfg) + [p]
    ensures var r, r' := Republish(packs, now, cfg), Republish(packs + [p], now, cfg);
      && (r.Some? <==> r'.Some?)
      && (r.Some? ==> r'.value == r.value.(
            modulesOffline := r.value.modulesOffline + 1,
            alarms := r.value.alarms.(alarm := 2, internalFailure := 2),
            bmsData := packs + [p]))
  {
    FilterSnoc(packs, (d: BmsData) => IsOnline(d, now, cfg), p);
    FilterSnoc(packs, (d: BmsData) => !IsOnline(d, now, cfg), p);
  }

  /** Some pack is offline iff the offline list is not empty. */
  lemma OfflineWitness(packs: seq<BmsData>, now: real, cfg: Config)
    ensures Offline(packs, now, cfg) != [] <==> exists i :: 0 <= i < |packs| && !IsOnline(packs[i], now, cfg)
  {
    var off := Offline(packs, now, cfg);
    if off != [] {
      FilterMembers(packs, (d: BmsData) => !IsOnline(d, now, cfg), off[0]);
    }
    if exists i :: 0 <= i < |packs| && !IsOnline(packs[i], now, cfg) {
      var i :| 0 <= i < |packs| && !IsOnline(packs[i], now, cfg);
      FilterMembers(packs, (d: BmsData) => !IsOnline(d, now, cfg), packs[i]);
    }
  }

  /**
   * The low-temperature alarm compares the largest of the packs' minimum
   * temperatures, so it is raised only when every online pack is below
   * 10 degrees.
   */
  lemma LowTemperatureNeedsAllCold(online: seq<BmsData>, numberOfCells: int, offline: nat)
    requires online != []
    ensures AlarmsOf(AggregateOf(online, numberOfCells), offline).lowTemperature == 2
      <==> forall i :: 0 <= i < |online| ==> online[i].minTemp < 10
  {
    var m := Largest(online, MinTemp);
    assert AggregateOf(online, numberOfCells).minTemperature == m;
  }

  // ---------------------------------------------------------------------
  // The service

  class VirtualBatteryService {
    const cfg: Config
    /** `knownBmsData`: the latest snapshot of every pack ever reported. */
    var known: map<BmsId, BmsData>
    /** The insertion order of `knownBmsData`. */
    var order: seq<BmsId>
    /** Every report sent to the Victron system, in order. */
    var published: seq<Report>

    predicate Valid()
      reads this
    {
      Ordered(known, order)
    }

    constructor (cfg: Config)
      ensures Valid() && this.cfg == cfg && known == map[] && order == [] && published == []
    {
      this.cfg := cfg;
      known := map[];
      order := [];
      published := [];
    }

    /**
     * `onBmsData`: when the lock is free, stores the batch and republishes;
     * when it is held (`lockFree` false), the whole batch is dropped.
     */
    method OnBmsData(batch: seq<BmsData>, lockFree: bool, now: real)
      requires Valid()
      modifies this
      ensures Valid()
      ensures !lockFree ==> known == old(known) && order == old(order) && published == old(published)
      ensures lockFree ==> (known, order) == ApplyBatch(old(known), old(order), batch)
      ensures lockFree ==> published == old(published) + Sent(Republish(Snapshots(known, order), now, cfg))
    {
      if lockFree {
        OnBmsDataLocked(batch, now);
      }
    }

    /** `onBmsDataLocked`: stores every snapshot of the batch, then republishes. */
    method OnBmsDataLocked(batch: seq<BmsData>, now: real)
      requires Valid()
      modifies this
      ensures Valid()
      ensures (known, order) == ApplyBatch(old(known), old(order), batch)
      ensures published == old(published) + Sent(Republish(Snapshots(known, order), now, cfg))
    {
      Absorb(batch);
      published := published + Sent(Republish(Snapshots(known, order), now, cfg));
    }

    /** The loop of `onBmsDataLocked`: every snapshot of the batch replaces its pack's last one. */
    method Absorb(batch: seq<BmsData>)
      requires Valid()
      modifies this
      ensures Valid() && published == old(published)
      ensures (known, order) == ApplyBatch(old(known), old(order), batch)
    {
      ghost var goal := ApplyBatch(known, order, batch);
      for i := 0 to |batch|
        invariant Valid() && ApplyBatch(known, order, batch[i..]) == goal
        invariant published == old(published)
      {
        var d := batch[i];
        assert batch[i..][1..] == batch[i + 1..];
        if d.bmsId !in known {
          order := order + [d.bmsId];
        }
        known := known[d.bmsId := d];
      }
      assert batch[|batch|..] == [];
    }
  }

  /** The messages one republish sends: none, or the report. */
  function Sent(r: Option<Report>): seq<Report> {
    if r.Some? then [r.value] else []
  }
}

/**
 * The records shared by the BMS side and the Victron side
 * (bms/BmsService.kt, bms/DalyBmsConnection.kt). Timestamps are seconds
 * on an abstract clock; electrical values are exact reals.
 */
module BmsTypes {
  /**
   * A configured pack. Equality is structural on all four fields, so a
   * changed display name or capacity makes a different pack.
   */
  datatype BmsId = BmsId(usbId: string, bmsId: string, displayName: string, capacity: int)

  /** The BMS's charge state code: 0 stationary, 1 charged, 2 discharged. */
  datatype BmStatus = Stationary | Charged | Discharged

  /** The wire value of each status. */
  function StatusValue(s: BmStatus): (v: int)
    ensures 0 <= v <= 2
  {
    match s
    case Stationary => 0
    case Charged => 1
    case Discharged => 2
  }

  /** One snapshot of a pack, as decoded from a full poll. */
  datatype BmsData = BmsData(
    bmsId: BmsId,
    timestamp: real,
    voltage: real,
    current: real,
    soc: real,
    avgEstimatedSoc: real,
    maxCellVoltage: real,
    maxCellNumber: int,
    minCellVoltage: real,
    minCellNumber: int,
    maxTemp: int,
    maxTempCellNumber: int,
    minTemp: int,
    minTempCellNumber: int,
    status: BmStatus,
    mosfetCharging: bool,
    mosfetDischarging: bool,
    lifeCycles: int,
    remainingCapacity: real,
    chargerStatus: bool,
    loadStatus: bool,
    cycles: int,
    cellVoltages: seq<real>,
    socEstimates: seq<real>,
    errors: seq<string>)
}

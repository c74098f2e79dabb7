/**
 * Start-up validation of the simulation parameters (`validateConfig` in Go
 * file `backend/cmd/sim/main.go`): five checks run in a fixed order and the
 * first one violated names the offending parameter.
 */
module SimConfig {
  import opened Wrappers

  /** One value per check, carrying the rejected value. */
  datatype ConfigError =
    | CellSizeNotPositive(cellSize: real)
    | AoiRadiusNegative(aoiRadius: real)
    | TickRateTooLow(tickHz: int)
    | SnapshotRateTooLow(snapshotHz: int)
    | HysteresisNegative(hysteresis: real)

  /** The parameter an error rejects, as its message names it. */
  function ParameterName(e: ConfigError): string
  {
    match e
    case CellSizeNotPositive(_) => "cell size"
    case AoiRadiusNegative(_) => "AOI radius"
    case TickRateTooLow(_) => "tick rate"
    case SnapshotRateTooLow(_) => "snapshot rate"
    case HysteresisNegative(_) => "handover hysteresis"
  }

  /** The admissible range of that parameter. */
  function Bound(e: ConfigError): string
  {
    match e
    case CellSizeNotPositive(_) => "> 0"
    case AoiRadiusNegative(_) => ">= 0"
    case TickRateTooLow(_) => ">= 1 Hz"
    case SnapshotRateTooLow(_) => ">= 1 Hz"
    case HysteresisNegative(_) => ">= 0"
  }

  /** The requirement an error message states ahead of the rejected value; it opens with the parameter's name. */
  function Message(e: ConfigError): (r: string)
    ensures ParameterName(e) <= r
  {
    ParameterName(e) + " must be " + Bound(e)
  }

  /**
   * The configuration is accepted exactly when every parameter is in range;
   * otherwise the error is the first violated check, in the order cell size,
   * AOI radius, tick rate, snapshot rate, hysteresis.
   */
  function ValidateConfig(cellSize: real, aoiRadius: real, tickHz: int, snapshotHz: int, hysteresis: real): (r: Option<ConfigError>)
    ensures r.None? <==> cellSize > 0.0 && aoiRadius >= 0.0 && tickHz >= 1 && snapshotHz >= 1 && hysteresis >= 0.0
    ensures r == Some(CellSizeNotPositive(cellSize)) <==> cellSize <= 0.0
    ensures r == Some(AoiRadiusNegative(aoiRadius)) <==> cellSize > 0.0 && aoiRadius < 0.0
    ensures r == Some(TickRateTooLow(tickHz)) <==> cellSize > 0.0 && aoiRadius >= 0.0 && tickHz < 1
    ensures r == Some(SnapshotRateTooLow(snapshotHz)) <==>
      cellSize > 0.0 && aoiRadius >= 0.0 && tickHz >= 1 && snapshotHz < 1
    ensures r == Some(HysteresisNegative(hysteresis)) <==>
      cellSize > 0.0 && aoiRadius >= 0.0 && tickHz >= 1 && snapshotHz >= 1 && hysteresis < 0.0
  {
    if cellSize <= 0.0 then Some(CellSizeNotPositive(cellSize))
    else if aoiRadius < 0.0 then Some(AoiRadiusNegative(aoiRadius))
    else if tickHz < 1 then Some(TickRateTooLow(tickHz))
    else if snapshotHz < 1 then Some(SnapshotRateTooLow(snapshotHz))
    else if hysteresis < 0.0 then Some(HysteresisNegative(hysteresis))
    else None
  }

  /** The smallest accepted values pass, and a step past any one of them fails on that parameter. */
  lemma BoundaryValues()
    ensures ValidateConfig(0.1, 0.0, 1, 1, 0.0) == None
    ensures ValidateConfig(0.0, 0.0, 1, 1, 0.0) == Some(CellSizeNotPositive(0.0))
    ensures ValidateConfig(0.1, -0.01, 1, 1, 0.0) == Some(AoiRadiusNegative(-0.01))
    ensures ValidateConfig(0.1, 0.0, 0, 1, 0.0) == Some(TickRateTooLow(0))
    ensures ValidateConfig(0.1, 0.0, 1, 0, 0.0) == Some(SnapshotRateTooLow(0))
    ensures ValidateConfig(0.1, 0.0, 1, 1, -0.01) == Some(HysteresisNegative(-0.01))
  {
  }

  /** With every parameter out of range the cell size is reported, since it is checked first. */
  lemma FirstCheckWins()
    ensures ValidateConfig(-10.0, -5.0, 0, 0, -1.0) == Some(CellSizeNotPositive(-10.0))
  {
  }
}

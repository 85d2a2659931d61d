/** Input events and error codes (include/zephyr/dt-bindings/input/input-error-codes.h). */
module InputEvents {
  import opened Types

  const ERROR_NONE := 0x00
  const ERROR_IO := 0x01
  const ERROR_BUSY := 0x02
  const ERROR_NODEV := 0x03
  const ERROR_UNDER := 0x10
  const ERROR_OVER := 0x11
  const ERROR_DEV := 0x12
  const ERROR_PEDAL_PLAUS := 0x20

  /** What a device reports: a value on its axis, or an error code set or cleared. */
  datatype Event = Axis(value: int) | Error(code: nat, isSet: bool)

  const ENODEV := 19
  const EINVAL := 22
  const EAGAIN := 11

  /** The last value reported, if any was. */
  function LastAxis(log: seq<Event>): Option<int> {
    if log == [] then None
    else if Last(log).Axis? then Some(Last(log).value)
    else LastAxis(log[..|log| - 1])
  }

  /**
   The error a listener knows of after `log`: None if the events do not alternate between setting
   an error and clearing that same error.
   */
  function KnownError(log: seq<Event>): Option<nat> {
    if log == [] then Some(ERROR_NONE)
    else
      match (KnownError(log[..|log| - 1]), Last(log))
      case (None, _) => None
      case (known, Axis(_)) => known
      case (Some(known), Error(code, isSet)) =>
        if code == ERROR_NONE then None
        else if isSet then (if known == ERROR_NONE then Some(code) else None)
        else (if known == code then Some(ERROR_NONE) else None)
  }
}

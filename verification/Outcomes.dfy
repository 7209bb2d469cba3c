// Small types shared by the other modules.

module Outcomes {
  datatype Option<+T> = None | Some(value: T)

  /** Why a Modbus read failed; the names follow the diagnostic classes of the source. */
  datatype ModbusError = Timeout | CrcMismatch | BadFrame | ExceptionResponse(code: int)

  datatype Result<+T> = Ok(value: T) | Err(error: ModbusError)
}

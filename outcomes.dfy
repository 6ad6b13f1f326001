/** Failure-carrying results shared by the whole model. */
module Outcomes {

  datatype Option<+T> = None | Some(value: T)

  /** Why a step of the wire engine did not produce its value.
      Timeout, BadRequestType and WrongHttpVersion are the exceptions the
      engine throws; Hang and ArenaFull name the two ways its wait loops
      never return at all. */
  datatype Fault =
    | Timeout          // receive: "Timed out"
    | Hang             // receive polls forever: nothing arrives and the deadline is the close sentinel
    | ArenaFull        // wait loops spin forever on zero-byte reads into a full arena
    | BadRequestType   // get_type: "4xx bad request type"
    | WrongHttpVersion // parse_request: "Wrong HTTP version"

  datatype Result<+T> = Ok(value: T) | Err(fault: Fault)
}

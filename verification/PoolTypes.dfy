/** The values the pool moves around: ports, queue items, optional results. */
module PoolTypes {

  datatype Option<+T> = None | Some(value: T)

  datatype Result<+T> = Ok(value: T) | Err(error: Error)

  datatype Error =
    | NoAvailableResource
    | InvalidState
    | NotFound
    | ContextDone
    | InvalidArguments
    | CreateFailed
    | ListFailed
    | StoreFailed
    | BadAddress
    | AddressOccupied
    | Panic

  /** The part of a Neutron port the pool looks at. */
  datatype Port = Port(id: string, ip: string)

  /** An idle port and the instant up to which it is reserved for its last user. */
  datatype Item = Item(port: Port, reverse: int)

  function Min(a: int, b: int): (r: int) {
    if a <= b then a else b
  }

  function Max(a: int, b: int): (r: int) {
    if a <= b then b else a
  }
}

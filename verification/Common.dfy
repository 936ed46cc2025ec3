/** Shared value types. */
module Common {
  datatype Option<+T> = None | Some(value: T)

  type Byte = b: int | 0 <= b < 256

  type Bytes = seq<Byte>

  datatype Result<+T, +E> = Ok(value: T) | Err(error: E)

  datatype Protocol = Http | WebSocket | TcpTunnel

  /** The time from `since` to `now`, none if `now` is not after it. */
  function Elapsed(now: nat, since: nat): (r: nat)
    ensures since <= now ==> since + r == now
    ensures now <= since ==> r == 0
  {
    if now < since then 0 else now - since
  }
}

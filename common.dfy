/**
 * Types shared by every part of the port forwarder model.
 */
module Common {

  /** Go's optional values: a nil pointer or a missing result. */
  datatype Option<+T> = None | Some(value: T) {
    function GetOr(default: T): T {
      match this
      case Some(v) => v
      case None => default
    }
  }

  /** A value or the error that was reported instead of it. */
  datatype Result<+T, +E> = Ok(value: T) | Err(error: E)

  /** One byte of a socket payload. */
  type Byte = b: int | 0 <= b < 256

  /**
   * The record the forwarder keeps for each mapping, used for the console
   * listing and as the key of the termination table.  As in the source, `from`
   * holds the internal (target) port and `to` the external (listening) port.
   */
  datatype MapInfo = MapInfo(id: int, protocol: string, from: int, to: int)

  /** The two kinds of listener a mapping can start. */
  datatype Transport = Tcp | Udp

  /** A listener task started for a mapping: its kind, the internal host it dials, and its mapping. */
  datatype Engine = Engine(transport: Transport, host: Option<string>, info: MapInfo)

  /** The protocol selectors the forwarder accepts. */
  predicate ValidProtocol(protocol: string) {
    protocol == "tcp" || protocol == "udp" || protocol == "both"
  }

  /**
   * The listeners started for one mapping: "tcp" and "udp" start one each,
   * "both" starts a TCP listener and then a UDP listener, anything else none.
   */
  function EnginesFor(protocol: string, host: Option<string>, info: MapInfo): (es: seq<Engine>)
    ensures |es| > 0 <==> ValidProtocol(protocol)
    ensures forall e :: e in es ==> e.host == host && e.info == info
    ensures (Engine(Tcp, host, info) in es) <==> (protocol == "tcp" || protocol == "both")
    ensures (Engine(Udp, host, info) in es) <==> (protocol == "udp" || protocol == "both")
  {
    if protocol == "tcp" then [Engine(Tcp, host, info)]
    else if protocol == "udp" then [Engine(Udp, host, info)]
    else if protocol == "both" then [Engine(Tcp, host, info), Engine(Udp, host, info)]
    else []
  }
}

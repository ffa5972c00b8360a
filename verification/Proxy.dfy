/** The values that proxy sessions exchange with their users. */
module Proxy {
  import opened Bytes
  import opened IpAddresses

  /** If there is a host name, the address is ignored. */
  datatype Destination = Destination(hostname: seq<byte>, ip: Address, port: uint16) {
    predicate UsingHostname() {
      hostname != []
    }
  }

  /** A destination before anything has been stored in it. */
  const NO_DESTINATION := Destination([], V4([0, 0, 0, 0]), 0)

  /** Two destinations that lead to the same place. */
  predicate SameTarget(a: Destination, b: Destination) {
    a.hostname == b.hostname && a.port == b.port && (a.UsingHostname() || a.ip == b.ip)
  }

  datatype Credentials = Credentials(username: seq<byte>, password: seq<byte>) {
    predicate Empty() {
      username == [] && password == []
    }
  }

  datatype Major = Succeeded | HostUnreachable | ConnectionRefused | BadAddressType | UnknownError

  /** The errors handlers are called with: the sessions' own, and those of the network. */
  datatype Error =
    | ProtocolViolation | UnsupportedCommand | AuthFailed | BadAuthMethod | CredsTooLong | HostnameTooLong | LineTooLong
    | NetRefused | NetUnreachable | NetFamilyNotSupported | NetEof | NetOther(code: int)

  predicate OfNetwork(e: Error) {
    e.NetRefused? || e.NetUnreachable? || e.NetFamilyNotSupported? || e.NetEof? || e.NetOther?
  }

  datatype Result<+T> = Ok(value: T) | Err(error: Error)

  /** `error_code_to_major`. */
  function ErrorToMajor(e: Error): Option<Major> {
    match e
    case NetRefused => Some(ConnectionRefused)
    case NetUnreachable => Some(HostUnreachable)
    case NetFamilyNotSupported => Some(BadAddressType)
    case _ => None
  }
}

/** The values a WireGuard configuration and a WireGuard device are made of. */
module WireguardTypes {
  import opened Outcomes

  /** A 32-byte key. */
  datatype Key = Key(bytes: seq<nat>)

  function Zeros(n: nat): (r: seq<nat>)
    ensures |r| == n && forall i :: 0 <= i < n ==> r[i] == 0
  {
    if n == 0 then [] else Zeros(n - 1) + [0]
  }

  const KEY_LENGTH: nat := 32

  const ZERO_KEY := Key(Zeros(KEY_LENGTH))

  datatype IPNet = IPNet(ip: seq<nat>, maskLength: nat)

  datatype UDPAddr = UDPAddr(ip: string, port: nat)

  /** Address and key parsing belong to Go's net package and to wgtypes; they enter as
      functions, `None` being an error. */
  datatype Parsers = Parsers(
    key: string -> Option<Key>,
    cidr: string -> Option<IPNet>,
    udp: string -> Option<UDPAddr>)
}

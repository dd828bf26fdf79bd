/** The WireGuard device as pkg/uapi/client.go drives it: what `wg show dump`
    reports about a peer, and what one `wg set` does to the device.
 */
module WireGuard {
  import opened Keys

  datatype PeerInfo = PeerInfo(
    publicKey: Key,
    endpoint: string,
    allowedIPs: string,
    latestHandshake: int,
    transferRx: int,
    persistentKeepalive: int)

  /** `SetPeer` and `SetEndpointFast` / `SetEndpoint`. */
  datatype Command =
    | SetPeer(publicKey: Key, endpoint: string, allowedIPs: string, keepAlive: int)
    | SetEndpoint(publicKey: Key, endpoint: string)

  const NO_ROUTES: string := "(none)"

  datatype Peer = Peer(endpoint: string, allowedIPs: string, keepAlive: int)

  type Device = map<Key, Peer>

  function PeerOf(d: Device, pk: Key): Peer {
    if pk in d then d[pk] else Peer(NO_ROUTES, NO_ROUTES, 0)
  }

  /** `buildArgs` leaves out an empty AllowedIPs and a keepalive that is not
      positive, and what is left out keeps its value; an unknown peer is created. */
  function Execute(d: Device, cmd: Command): Device {
    var p := PeerOf(d, cmd.publicKey);
    match cmd
    case SetPeer(pk, endpoint, allowedIPs, keepAlive) =>
      d[pk := Peer(endpoint,
                   if allowedIPs != "" then allowedIPs else p.allowedIPs,
                   if keepAlive > 0 then keepAlive else p.keepAlive)]
    case SetEndpoint(pk, endpoint) => d[pk := p.(endpoint := endpoint)]
  }
}

/**
 * Protocols, loopback addresses, bound sockets, the random private address
 * and the bind-retry loop that keeps one address (src/connection.rs).
 */
module Connection {
  import opened Numeric

  datatype Protocol = Tcp | Udp

  datatype Ipv4 = Ipv4(a: uint8, b: uint8, c: uint8, d: uint8)

  /** 127.0.0.1, where every container's published port is reached. */
  const Localhost: Ipv4 := Ipv4(127, 0, 0, 1)

  datatype SocketAddr = SocketAddr(ip: Ipv4, port: uint16)

  /** What a bind competes for: TCP and UDP have separate port spaces. */
  datatype Endpoint = Endpoint(protocol: Protocol, addr: SocketAddr)

  /**
   * A bound socket, recorded by its local address. The source calls the same
   * two-variant type `Listener` in src/connection.rs and `Inbound` in src/proxy.rs.
   */
  datatype Listener = TcpListener(local: SocketAddr) | UdpSocket(local: SocketAddr)
  {
    function ProtocolOf(): Protocol {
      if TcpListener? then Tcp else Udp
    }
  }

  /** One draw of `Uniform::from(0..255)` (or `gen_range(0..255)`): 255 is excluded. */
  type Sample = x: int | 0 <= x < 255

  /** The three samples one call of `random_private_ip` consumes. */
  datatype Draw = Draw(x: Sample, y: Sample, z: Sample)

  /** The addresses `random_private_ip` can produce. */
  predicate IsPrivateCandidate(ip: Ipv4) {
    ip.a == 127 && ip.b < 255 && ip.c < 255 && ip.d < 255
  }

  /** `random_private_ip`, with the random samples supplied by the caller. */
  function RandomPrivateIp(draw: Draw): (ip: Ipv4)
    ensures IsPrivateCandidate(ip)
  {
    Ipv4(127, draw.x, draw.y, draw.z)
  }

  /**
   * The candidates are exactly the loopback addresses whose last three octets
   * are not 255, and distinct draws give distinct addresses.
   */
  lemma RandomPrivateIpRange(ip: Ipv4)
    ensures IsPrivateCandidate(ip) <==> exists draw :: RandomPrivateIp(draw) == ip
    ensures forall d1, d2 :: RandomPrivateIp(d1) == RandomPrivateIp(d2) ==> d1 == d2
  {
    if IsPrivateCandidate(ip) {
      assert RandomPrivateIp(Draw(ip.b, ip.c, ip.d)) == ip;
    }
  }

  /** Fixed backoff after each failed bind, in milliseconds. */
  const BackoffMillis: nat := 500

  /**
   * The outcome of a bind-retry loop run against a finite prefix of attempts.
   * `failed` lists the address logged by each failed attempt and `sleptMillis`
   * the backoff slept so far. `StillRetrying` means no attempt in the prefix
   * succeeded, so the source would still be looping: there is no error result.
   */
  datatype BindResult =
    | Bound(listener: Listener, failed: seq<SocketAddr>, sleptMillis: nat)
    | StillRetrying(failed: seq<SocketAddr>, sleptMillis: nat)

  /**
   * `get_connection`: bind `address` for `protocol` until a bind succeeds.
   * `occupied[i]` is the set of endpoints that make attempt `i` fail; every
   * attempt uses the same `address`.
   */
  method GetConnection(address: SocketAddr, protocol: Protocol, occupied: seq<set<Endpoint>>)
    returns (r: BindResult)
    ensures r.Bound? <==> exists i :: 0 <= i < |occupied| && Endpoint(protocol, address) !in occupied[i]
    ensures r.Bound? ==> r.listener.ProtocolOf() == protocol && r.listener.local == address
    ensures r.Bound? ==> |r.failed| < |occupied| && Endpoint(protocol, address) !in occupied[|r.failed|]
    ensures r.StillRetrying? ==> |r.failed| == |occupied|
    ensures forall j :: 0 <= j < |r.failed| ==> r.failed[j] == address && Endpoint(protocol, address) in occupied[j]
    ensures r.sleptMillis == BackoffMillis * |r.failed|
  {
    var endpoint := Endpoint(protocol, address);
    var failed: seq<SocketAddr> := [];
    var slept := 0;
    var i := 0;
    while i < |occupied|
      invariant 0 <= i <= |occupied|
      invariant |failed| == i
      invariant forall j :: 0 <= j < i ==> failed[j] == address && endpoint in occupied[j]
      invariant slept == BackoffMillis * i
    {
      if endpoint !in occupied[i] {
        var listener := match protocol
          case Tcp => TcpListener(address)
          case Udp => UdpSocket(address);
        return Bound(listener, failed, slept);
      }
      failed := failed + [address];
      slept := slept + BackoffMillis;
      i := i + 1;
    }
    return StillRetrying(failed, slept);
  }
}

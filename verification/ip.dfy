/**
 * The bind-retry loop of src/ip.rs (repeated in src/main.rs): unlike
 * `Connection.GetConnection`, every attempt draws a fresh private address.
 */
module Ip {
  import opened Numeric
  import opened Connection

  /**
   * One loop iteration as the environment decides it: the samples
   * `random_private_ip` draws, and the endpoints that make the bind fail.
   */
  datatype Attempt = Attempt(draw: Draw, occupied: set<Endpoint>)

  /** The address attempt `a` tries to bind for `port`. */
  function AttemptAddr(port: uint16, a: Attempt): SocketAddr {
    SocketAddr(RandomPrivateIp(a.draw), port)
  }

  predicate AttemptSucceeds(port: uint16, a: Attempt) {
    Endpoint(Tcp, AttemptAddr(port, a)) !in a.occupied
  }

  /**
   * `get_listener`: draw a random private address, try to bind a TCP listener
   * on it at `port`, and on failure log that address, back off and redraw.
   */
  method GetListener(port: uint16, attempts: seq<Attempt>) returns (r: BindResult)
    ensures r.Bound? <==> exists i :: 0 <= i < |attempts| && AttemptSucceeds(port, attempts[i])
    ensures r.Bound? ==> |r.failed| < |attempts| && AttemptSucceeds(port, attempts[|r.failed|])
    ensures r.Bound? ==> r.listener == TcpListener(AttemptAddr(port, attempts[|r.failed|]))
    ensures r.Bound? ==> IsPrivateCandidate(r.listener.local.ip) && r.listener.local.port == port
    ensures r.StillRetrying? ==> |r.failed| == |attempts|
    ensures forall j :: 0 <= j < |r.failed| ==>
              r.failed[j] == AttemptAddr(port, attempts[j]) && !AttemptSucceeds(port, attempts[j])
    ensures r.sleptMillis == BackoffMillis * |r.failed|
  {
    var failed: seq<SocketAddr> := [];
    var slept := 0;
    var i := 0;
    while i < |attempts|
      invariant 0 <= i <= |attempts|
      invariant |failed| == i
      invariant forall j :: 0 <= j < i ==>
                  failed[j] == AttemptAddr(port, attempts[j]) && !AttemptSucceeds(port, attempts[j])
      invariant slept == BackoffMillis * i
    {
      var ip := RandomPrivateIp(attempts[i].draw);
      var address := SocketAddr(ip, port);
      if Endpoint(Tcp, address) !in attempts[i].occupied {
        return Bound(TcpListener(address), failed, slept);
      }
      failed := failed + [address];
      slept := slept + BackoffMillis;
      i := i + 1;
    }
    return StillRetrying(failed, slept);
  }
}

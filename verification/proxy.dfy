/**
 * The proxy registry of src/proxy.rs: container id to the relay tasks spawned
 * for it. A task is an abstract handle recording where it binds and where it
 * relays; aborting a task records its handle in `aborted`.
 */
module Proxy {
  import opened Numeric
  import opened Connection
  import opened Info
  import opened Wrappers
  import opened Sequences

  /**
   * A spawned relay task (`JoinHandle<()>`). `task` is the runtime's task
   * serial, so two tasks with equal addresses are still different handles.
   */
  datatype Handle = Handle(task: nat, container: string, bind: SocketAddr, target: SocketAddr, protocol: Protocol)

  /** `ProxyManager`, together with the effects the registry has on the task runtime. */
  datatype Manager = Manager(proxies: map<string, seq<Handle>>, aborted: set<Handle>, nextTask: nat)

  /** `std::io::Result<()>`. */
  datatype IoResult = Ok | Err(message: string)

  /** Handle `h` is the relay of task `task` for `port` of container `id`. */
  predicate RelaysPort(h: Handle, task: nat, id: string, port: ProxyPort) {
    && h.task == task
    && h.container == id
    && IsPrivateCandidate(h.bind.ip)
    && h.bind.port == port.privatePort
    && h.target == SocketAddr(Localhost, port.publicPort)
    && h.protocol == port.protocol
  }

  /** A port gets a relay when its private and public numbers differ. */
  function Relayable(q: ProxyPort): Option<ProxyPort> {
    if q.privatePort != q.publicPort then Some(q) else None
  }

  /**
   * The ports that get a relay: every port whose private and public numbers
   * differ, once per occurrence, in port order.
   */
  function RelayedPorts(ports: seq<ProxyPort>): (r: seq<ProxyPort>)
    ensures |r| <= |ports|
    ensures forall q :: q in r <==> q in ports && q.privatePort != q.publicPort
    decreases |ports|
  {
    if |ports| == 0 then []
    else
      assert forall q :: q in ports <==> q == ports[0] || q in ports[1..];
      (if ports[0].privatePort == ports[0].publicPort then [] else [ports[0]]) + RelayedPorts(ports[1..])
  }

  /**
   * `RelayedPorts` is `filter(Relayable)`: one relay per port whose numbers
   * differ, once per occurrence, in port order.
   */
  lemma {:induction false} RelayedPortsFilterMap(ports: seq<ProxyPort>)
    ensures IsFilterMap(RelayedPorts(ports), ports, Relayable)
    decreases |ports|
  {
    if |ports| == 0 {
      FilterMapEmpty(ports, Relayable);
    } else {
      RelayedPortsFilterMap(ports[1..]);
      FilterMapStep(ports, RelayedPorts(ports[1..]), RelayedPorts(ports), Relayable);
    }
  }

  /**
   * `start_proxy`: draw the private address now, then spawn the task that
   * binds it and relays to 127.0.0.1 at the public port. The bind itself
   * happens inside the task (`SpawnedTaskBind`).
   */
  function StartProxy(task: nat, id: string, port: ProxyPort, draw: Draw): (h: Handle)
    ensures RelaysPort(h, task, id, port)
  {
    Handle(task, id, SocketAddr(RandomPrivateIp(draw), port.privatePort), SocketAddr(Localhost, port.publicPort), port.protocol)
  }

  /**
   * The loop of `container_created` over the ports: `draws[i]` holds the
   * random samples used when port `i` is relayed. Handles are numbered from
   * `next` in port order.
   */
  function SpawnAll(id: string, ports: seq<ProxyPort>, draws: seq<Draw>, next: nat): (hs: seq<Handle>)
    requires |draws| == |ports|
    ensures |hs| == |RelayedPorts(ports)|
    ensures forall k :: 0 <= k < |hs| ==> RelaysPort(hs[k], next + k, id, RelayedPorts(ports)[k])
    decreases |ports|
  {
    if |ports| == 0 then []
    else if ports[0].privatePort == ports[0].publicPort then
      assert RelayedPorts(ports) == RelayedPorts(ports[1..]);
      SpawnAll(id, ports[1..], draws[1..], next)
    else
      var rest := SpawnAll(id, ports[1..], draws[1..], next + 1);
      assert RelayedPorts(ports) == [ports[0]] + RelayedPorts(ports[1..]);
      [StartProxy(next, id, ports[0], draws[0])] + rest
  }

  /** The registry invariant every reachable manager keeps. */
  ghost predicate Valid(m: Manager) {
    && (forall id, k :: id in m.proxies && 0 <= k < |m.proxies[id]| ==>
          && m.proxies[id][k].container == id
          && m.proxies[id][k].task < m.nextTask
          && m.proxies[id][k] !in m.aborted
          && IsPrivateCandidate(m.proxies[id][k].bind.ip)
          && m.proxies[id][k].target.ip == Localhost
          && m.proxies[id][k].bind.port != m.proxies[id][k].target.port)
    && (forall id1, k1, id2, k2 ::
          && id1 in m.proxies && 0 <= k1 < |m.proxies[id1]|
          && id2 in m.proxies && 0 <= k2 < |m.proxies[id2]|
          && (id1 != id2 || k1 != k2)
          ==> m.proxies[id1][k1].task != m.proxies[id2][k2].task)
    && (forall h :: h in m.aborted ==> h.task < m.nextTask)
  }

  /** `ProxyManager::new`: an empty registry. */
  function New(): (m: Manager)
    ensures m.proxies == map[] && m.aborted == {}
    ensures Valid(m)
  {
    Manager(map[], {}, 0)
  }

  /**
   * `container_created`: a registered id changes nothing; otherwise one
   * handle per port whose private and public numbers differ, in port order,
   * is inserted under the id, even when that list is empty. Never an error.
   */
  function ContainerCreated(m: Manager, container: ProxyableContainer, draws: seq<Draw>): (r: (Manager, IoResult))
    requires |draws| == |container.ports|
    ensures r.1 == Ok
    ensures container.id in m.proxies ==> r.0 == m
    ensures container.id !in m.proxies ==>
              && r.0.aborted == m.aborted
              && r.0.proxies.Keys == m.proxies.Keys + {container.id}
              && (forall id :: id in m.proxies ==> r.0.proxies[id] == m.proxies[id])
              && |r.0.proxies[container.id]| == |RelayedPorts(container.ports)|
              && (forall k :: 0 <= k < |r.0.proxies[container.id]| ==>
                    RelaysPort(r.0.proxies[container.id][k], m.nextTask + k, container.id, RelayedPorts(container.ports)[k]))
  {
    if container.id in m.proxies then (m, Ok)
    else
      var proxies := SpawnAll(container.id, container.ports, draws, m.nextTask);
      (Manager(m.proxies[container.id := proxies], m.aborted, m.nextTask + |proxies|), Ok)
  }

  /**
   * `container_removed`: erase the id's entry and abort every handle in it;
   * an absent id changes nothing.
   */
  function ContainerRemoved(m: Manager, id: string): (r: Manager)
    ensures r.proxies.Keys == m.proxies.Keys - {id}
    ensures forall other :: other in r.proxies ==> r.proxies[other] == m.proxies[other]
    ensures id in m.proxies ==> r.aborted == m.aborted + (set h | h in m.proxies[id])
    ensures id !in m.proxies ==> r == m
    ensures r.nextTask == m.nextTask
  {
    if id in m.proxies then
      Manager(m.proxies - {id}, m.aborted + (set h | h in m.proxies[id]), m.nextTask)
    else m
  }

  /**
   * The body of the task `start_proxy` spawns, up to the bind: it retries the
   * handle's own address, and the socket it gets is of the handle's protocol.
   */
  method SpawnedTaskBind(h: Handle, occupied: seq<set<Endpoint>>) returns (r: BindResult)
    ensures r.Bound? <==> exists i :: 0 <= i < |occupied| && Endpoint(h.protocol, h.bind) !in occupied[i]
    ensures r.Bound? ==> r.listener.local == h.bind && r.listener.ProtocolOf() == h.protocol
    ensures r.Bound? ==> (h.protocol == Tcp <==> r.listener.TcpListener?)
  {
    r := GetConnection(h.bind, h.protocol, occupied);
  }

  lemma CreatedPreservesValid(m: Manager, container: ProxyableContainer, draws: seq<Draw>)
    requires Valid(m)
    requires |draws| == |container.ports|
    ensures Valid(ContainerCreated(m, container, draws).0)
  {
    if container.id !in m.proxies {
      var m' := ContainerCreated(m, container, draws).0;
      var hs := m'.proxies[container.id];
      var relayed := RelayedPorts(container.ports);
      assert m'.nextTask == m.nextTask + |hs|;
      forall k | 0 <= k < |hs|
        ensures hs[k].task == m.nextTask + k && hs[k] !in m'.aborted
        ensures hs[k].bind.port != hs[k].target.port
      {
        assert relayed[k] in relayed;
      }
      forall id1, k1, id2, k2 |
          && id1 in m'.proxies && 0 <= k1 < |m'.proxies[id1]|
          && id2 in m'.proxies && 0 <= k2 < |m'.proxies[id2]|
          && (id1 != id2 || k1 != k2)
        ensures m'.proxies[id1][k1].task != m'.proxies[id2][k2].task
      {
        if id1 == container.id && id2 != container.id {
          assert m'.proxies[id2] == m.proxies[id2];
        } else if id1 != container.id && id2 == container.id {
          assert m'.proxies[id1] == m.proxies[id1];
        }
      }
    }
  }

  lemma RemovedPreservesValid(m: Manager, id: string)
    requires Valid(m)
    ensures Valid(ContainerRemoved(m, id))
  {
    if id in m.proxies {
      var m' := ContainerRemoved(m, id);
      forall other, k | other in m'.proxies && 0 <= k < |m'.proxies[other]|
        ensures m'.proxies[other][k] !in m'.aborted
      {
        var h := m'.proxies[other][k];
        assert h == m.proxies[other][k];
      }
      forall h | h in m'.aborted
        ensures h.task < m'.nextTask
      {
        if h !in m.aborted {
          var j :| 0 <= j < |m.proxies[id]| && m.proxies[id][j] == h;
        }
      }
    }
  }

  /** Creating twice under one id is creating once, whatever the second record holds. */
  lemma CreateIdempotent(m: Manager, c1: ProxyableContainer, d1: seq<Draw>, c2: ProxyableContainer, d2: seq<Draw>)
    requires |d1| == |c1.ports| && |d2| == |c2.ports| && c1.id == c2.id
    ensures var m1 := ContainerCreated(m, c1, d1).0;
            ContainerCreated(m1, c2, d2) == (m1, Ok)
  {
  }

  /** Removing twice is removing once. */
  lemma RemoveIdempotent(m: Manager, id: string)
    ensures ContainerRemoved(ContainerRemoved(m, id), id) == ContainerRemoved(m, id)
  {
  }

  /**
   * Removing a freshly created container restores the registry and leaves
   * every handle spawned for it aborted.
   */
  lemma RemoveUndoesCreate(m: Manager, container: ProxyableContainer, draws: seq<Draw>)
    requires |draws| == |container.ports| && container.id !in m.proxies
    ensures var m1 := ContainerCreated(m, container, draws).0;
            var m2 := ContainerRemoved(m1, container.id);
            && m2.proxies == m.proxies
            && m2.aborted == m.aborted + (set h | h in m1.proxies[container.id])
  {
    var m1 := ContainerCreated(m, container, draws).0;
    var m2 := ContainerRemoved(m1, container.id);
    assert m2.proxies.Keys == m.proxies.Keys;
  }
}

/**
 * The port selection at start-up in src/main.rs: every listed container's
 * ports are de-duplicated by private port, ports without a public port are
 * skipped, and each survivor gets one spawned passthrough task. The protocol
 * is ignored.
 */
module Startup {
  import opened Wrappers
  import opened Numeric
  import opened Info
  import opened Sequences

  /** The arguments of one spawned `passthrough` task, with the container it serves. */
  datatype Passthrough = Passthrough(id: string, privatePort: uint16, publicPort: uint16)

  /** The passthrough for one de-duplicated port, if it has a public port. */
  function PortPassthrough(id: string, p: ContainerPort): (r: Option<Passthrough>)
    ensures r.Some? <==> p.publicPort.Some?
    ensures r.Some? ==> r.value == Passthrough(id, AsU16(p.privatePort), AsU16(p.publicPort.value))
  {
    match p.publicPort
    case None => None
    case Some(public) => Some(Passthrough(id, AsU16(p.privatePort), AsU16(public)))
  }

  /** `PortPassthrough` for a fixed container, as a function value for `IsFilterMap`. */
  function PassthroughOf(id: string): ContainerPort -> Option<Passthrough> {
    p => PortPassthrough(id, p)
  }

  /** The passthroughs of one container: one per port with a public port, in port order. */
  function PortsPassthroughs(id: string, ports: seq<ContainerPort>): (r: seq<Passthrough>)
    ensures forall t :: t in r <==> exists p :: p in ports && PortPassthrough(id, p) == Some(t)
    decreases |ports|
  {
    if |ports| == 0 then []
    else
      assert forall p :: p in ports <==> p == ports[0] || p in ports[1..];
      match PortPassthrough(id, ports[0])
      case None => PortsPassthroughs(id, ports[1..])
      case Some(t) => [t] + PortsPassthroughs(id, ports[1..])
  }

  /**
   * `PortsPassthroughs` is `filter_map(PassthroughOf(id))`: one passthrough
   * per port with a public port, in port order.
   */
  lemma {:induction false} PortsPassthroughsFilterMap(id: string, ports: seq<ContainerPort>)
    ensures IsFilterMap(PortsPassthroughs(id, ports), ports, PassthroughOf(id))
    decreases |ports|
  {
    if |ports| == 0 {
      FilterMapEmpty(ports, PassthroughOf(id));
    } else {
      PortsPassthroughsFilterMap(id, ports[1..]);
      FilterMapStep(ports, PortsPassthroughs(id, ports[1..]), PortsPassthroughs(id, ports), PassthroughOf(id));
    }
  }

  /** The `flat_map` then `filter_map` over the container listing, in listing order. */
  function SelectPassthroughs(containers: seq<Container>): (r: seq<Passthrough>)
    ensures forall t :: t in r <==>
              exists c :: c in containers && t in PortsPassthroughs(c.id, UniqueByPrivatePort(c.ports))
    decreases |containers|
  {
    if |containers| == 0 then []
    else
      assert forall c :: c in containers <==> c == containers[0] || c in containers[1..];
      var c := containers[0];
      PortsPassthroughs(c.id, UniqueByPrivatePort(c.ports)) + SelectPassthroughs(containers[1..])
  }

  /**
   * The passthroughs of a listing are those of its containers, concatenated
   * in listing order: splitting the listing splits the result.
   */
  lemma {:induction false} SelectPassthroughsConcat(a: seq<Container>, b: seq<Container>)
    ensures SelectPassthroughs(a + b) == SelectPassthroughs(a) + SelectPassthroughs(b)
    decreases |a|
  {
    if |a| == 0 {
      assert a + b == b;
      assert SelectPassthroughs(a) == [];
    } else {
      SelectPassthroughsConcat(a[1..], b);
      ConcatStep(a, b, PortsPassthroughs(a[0].id, UniqueByPrivatePort(a[0].ports)));
    }
  }

  /** Helper: the inductive step of `SelectPassthroughsConcat`, kept apart to keep it within the resource limit. */
  lemma ConcatStep(a: seq<Container>, b: seq<Container>, head: seq<Passthrough>)
    requires |a| > 0 && head == PortsPassthroughs(a[0].id, UniqueByPrivatePort(a[0].ports))
    requires SelectPassthroughs(a[1..] + b) == SelectPassthroughs(a[1..]) + SelectPassthroughs(b)
    ensures SelectPassthroughs(a + b) == SelectPassthroughs(a) + SelectPassthroughs(b)
  {
    var ab := a + b;
    assert ab[0] == a[0] && ab[1..] == a[1..] + b;
    SelectUnfold(ab);
    SelectUnfold(a);
    ConcatAssociative(head, SelectPassthroughs(a[1..]), SelectPassthroughs(b));
  }

  /** Helper: one unfolding of `SelectPassthroughs`, kept apart to keep callers within the resource limit. */
  lemma SelectUnfold(cs: seq<Container>)
    requires |cs| > 0
    ensures SelectPassthroughs(cs) == PortsPassthroughs(cs[0].id, UniqueByPrivatePort(cs[0].ports)) + SelectPassthroughs(cs[1..])
  {
  }

  /** A one-container listing yields exactly that container's passthroughs. */
  lemma SelectPassthroughsSingle(c: Container)
    ensures SelectPassthroughs([c]) == PortsPassthroughs(c.id, UniqueByPrivatePort(c.ports))
  {
    assert [c][1..] == [];
  }

  /**
   * A passthrough task is spawned exactly for the first port of some container
   * with a given private port, when that port has a public port; both numbers
   * are narrowed with `as u16`.
   */
  lemma PassthroughIff(containers: seq<Container>, t: Passthrough)
    ensures t in SelectPassthroughs(containers) <==>
            exists c, i :: && c in containers && c.id == t.id
                           && IsFirstOccurrence(c.ports, i) && c.ports[i].publicPort.Some?
                           && t.privatePort == AsU16(c.ports[i].privatePort)
                           && t.publicPort == AsU16(c.ports[i].publicPort.value)
  {
    if t in SelectPassthroughs(containers) {
      var c :| c in containers && t in PortsPassthroughs(c.id, UniqueByPrivatePort(c.ports));
      var p :| p in UniqueByPrivatePort(c.ports) && PortPassthrough(c.id, p) == Some(t);
      UniqueMembership(c.ports, p);
      var i :| IsFirstOccurrence(c.ports, i) && c.ports[i] == p;
    }
    if c, i :| && c in containers && c.id == t.id
               && IsFirstOccurrence(c.ports, i) && c.ports[i].publicPort.Some?
               && t.privatePort == AsU16(c.ports[i].privatePort)
               && t.publicPort == AsU16(c.ports[i].publicPort.value) {
      UniqueMembership(c.ports, c.ports[i]);
      assert PortPassthrough(c.id, c.ports[i]) == Some(t);
    }
  }

  /**
   * The later selection of src/info.rs only narrows this one: every port it
   * proxies has a passthrough here; conversely, when every port's type is
   * "tcp" or "udp", every passthrough here is a proxied port there.
   */
  lemma ProxyableIsPassthrough(containers: seq<Container>, c: Container, q: ProxyPort)
    requires c in containers
    ensures q in ContainerProxyPorts(c) ==>
              Passthrough(c.id, q.privatePort, q.publicPort) in SelectPassthroughs(containers)
    ensures (forall p :: p in c.ports ==> p.typ == "tcp" || p.typ == "udp") ==>
              forall t :: t in PortsPassthroughs(c.id, UniqueByPrivatePort(c.ports)) ==>
                exists q' :: q' in ContainerProxyPorts(c) && q'.privatePort == t.privatePort && q'.publicPort == t.publicPort
  {
    if q in ContainerProxyPorts(c) {
      ContainerProxyPortIff(c, q);
      var i :| IsFirstOccurrence(c.ports, i) && SelectPort(c.ports[i]) == Some(q);
      PassthroughIff(containers, Passthrough(c.id, q.privatePort, q.publicPort));
    }
    if forall p :: p in c.ports ==> p.typ == "tcp" || p.typ == "udp" {
      var u := UniqueByPrivatePort(c.ports);
      forall t | t in PortsPassthroughs(c.id, u)
        ensures exists q' :: q' in ContainerProxyPorts(c) && q'.privatePort == t.privatePort && q'.publicPort == t.publicPort
      {
        var p :| p in u && PortPassthrough(c.id, p) == Some(t);
        var k :| 0 <= k < |u| && u[k] == p;
        assert p in c.ports;
        var q' := SelectPort(p).value;
        assert q' in SelectPorts(u);
      }
    }
  }
}

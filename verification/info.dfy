/**
 * Turning container records into proxyable ports (src/info.rs): the listing
 * path de-duplicates by private port and filters, the details path parses
 * `port_bindings` keys such as "8080/tcp".
 */
module Info {
  import opened Wrappers
  import opened Numeric
  import opened Strings
  import opened Connection
  import opened Sequences

  /** A port record of the container listing; its numbers are 64-bit. */
  datatype ContainerPort = ContainerPort(privatePort: uint64, publicPort: Option<uint64>, typ: string)

  datatype Container = Container(id: string, ports: seq<ContainerPort>)

  datatype ProxyPort = ProxyPort(publicPort: uint16, privatePort: uint16, protocol: Protocol)

  datatype ProxyableContainer = ProxyableContainer(ports: seq<ProxyPort>, id: string)

  /** The spelling Docker uses for a protocol; `ParseProtocol` inverts it. */
  function ProtocolName(p: Protocol): (s: string)
    ensures ParseProtocol(s) == Some(p)
  {
    match p
    case Tcp => "tcp"
    case Udp => "udp"
  }

  /** Only the exact lower-case strings name a protocol. */
  function ParseProtocol(s: string): (r: Option<Protocol>)
    ensures r.Some? <==> s == "tcp" || s == "udp"
  {
    if s == "tcp" then Some(Tcp)
    else if s == "udp" then Some(Udp)
    else None
  }

  // ---------------------------------------------------------------------
  // De-duplication: `unique_by(|port| port.private_port)`, first one wins
  // ---------------------------------------------------------------------

  function PrivatePorts(ports: seq<ContainerPort>): set<uint64> {
    set p | p in ports :: p.privatePort
  }

  /** The position of the first port with private port `k`. */
  function FirstIndex(ports: seq<ContainerPort>, k: uint64): (i: nat)
    requires k in PrivatePorts(ports)
    ensures i < |ports| && ports[i].privatePort == k
    ensures forall j :: 0 <= j < i ==> ports[j].privatePort != k
    decreases |ports|
  {
    if ports[0].privatePort == k then 0
    else
      assert k in PrivatePorts(ports[1..]) by {
        var p :| p in ports && p.privatePort == k;
        assert p in ports[1..];
      }
      1 + FirstIndex(ports[1..], k)
  }

  /** Port `i` is the first one with its private port. */
  predicate IsFirstOccurrence(ports: seq<ContainerPort>, i: int) {
    0 <= i < |ports| && forall j :: 0 <= j < i ==> ports[j].privatePort != ports[i].privatePort
  }

  /**
   * The iterator state of `unique_by`: `seen` holds the keys already yielded.
   * A port is yielded when its key is not yet seen, and its key is then added.
   */
  function UniqueFrom(ports: seq<ContainerPort>, seen: set<uint64>): (r: seq<ContainerPort>)
    ensures PrivatePorts(r) == PrivatePorts(ports) - seen
    decreases |ports|
  {
    if |ports| == 0 then []
    else
      var h, t := ports[0], ports[1..];
      assert ports == [h] + t;
      assert PrivatePorts(ports) == {h.privatePort} + PrivatePorts(t);
      if h.privatePort in seen then UniqueFrom(t, seen)
      else
        var r' := UniqueFrom(t, seen + {h.privatePort});
        assert PrivatePorts([h] + r') == {h.privatePort} + PrivatePorts(r');
        [h] + r'
  }

  /**
   * Every yielded port is the first port of the input with its key, and the
   * yielded ports come in the order of those first positions.
   */
  lemma {:induction false} UniqueFromFirst(ports: seq<ContainerPort>, seen: set<uint64>, r: seq<ContainerPort>)
    requires r == UniqueFrom(ports, seen)
    ensures forall i :: 0 <= i < |r| ==>
              r[i].privatePort in PrivatePorts(ports) && r[i] == ports[FirstIndex(ports, r[i].privatePort)]
    ensures forall i, j :: 0 <= i < j < |r| ==>
              FirstIndex(ports, r[i].privatePort) < FirstIndex(ports, r[j].privatePort)
    decreases |ports|
  {
    if |ports| > 0 {
      var h, t := ports[0], ports[1..];
      var seen' := if h.privatePort in seen then seen else seen + {h.privatePort};
      var r' := UniqueFrom(t, seen');
      UniqueFromFirst(t, seen', r');
      assert PrivatePorts(r') == PrivatePorts(t) - seen';
      assert PrivatePorts(t) <= PrivatePorts(ports) by {
        forall p | p in t ensures p in ports { }
      }
      forall i | 0 <= i < |r'|
        ensures r'[i].privatePort in PrivatePorts(ports)
        ensures FirstIndex(ports, r'[i].privatePort) == 1 + FirstIndex(t, r'[i].privatePort)
      {
        assert r'[i] in r';
        assert r'[i].privatePort != h.privatePort;
      }
      if h.privatePort !in seen {
        assert r == [h] + r';
        assert forall i :: 1 <= i < |r| ==> r[i] == r'[i - 1];
      }
    }
  }

  /**
   * `unique_by` on the private port: the first port of every private port,
   * in input order, and nothing else.
   */
  function UniqueByPrivatePort(ports: seq<ContainerPort>): (r: seq<ContainerPort>)
    ensures PrivatePorts(r) == PrivatePorts(ports)
    ensures forall i :: 0 <= i < |r| ==>
              r[i].privatePort in PrivatePorts(ports) && r[i] == ports[FirstIndex(ports, r[i].privatePort)]
    ensures forall i, j :: 0 <= i < j < |r| ==>
              FirstIndex(ports, r[i].privatePort) < FirstIndex(ports, r[j].privatePort)
  {
    var r := UniqueFrom(ports, {});
    UniqueFromFirst(ports, {}, r);
    r
  }

  /** The ports `unique_by` keeps are exactly the first occurrences. */
  lemma UniqueMembership(ports: seq<ContainerPort>, p: ContainerPort)
    ensures p in UniqueByPrivatePort(ports) <==> exists i :: IsFirstOccurrence(ports, i) && ports[i] == p
  {
    var r := UniqueByPrivatePort(ports);
    if p in r {
      var k :| 0 <= k < |r| && r[k] == p;
      var i := FirstIndex(ports, p.privatePort);
      assert IsFirstOccurrence(ports, i) && ports[i] == p;
    }
    if i :| IsFirstOccurrence(ports, i) && ports[i] == p {
      assert p.privatePort in PrivatePorts(r);
      var q :| q in r && q.privatePort == p.privatePort;
      var k :| 0 <= k < |r| && r[k] == q;
      assert FirstIndex(ports, p.privatePort) == i;
    }
  }

  predicate DistinctPortKeys(ps: seq<ContainerPort>) {
    forall i, j :: 0 <= i < j < |ps| ==> ps[i].privatePort != ps[j].privatePort
  }

  predicate DistinctProxyKeys(r: seq<ProxyPort>) {
    forall i, j :: 0 <= i < j < |r| ==> r[i].privatePort != r[j].privatePort
  }

  /** Output keys of `unique_by` are pairwise distinct. */
  lemma UniqueDistinct(ports: seq<ContainerPort>)
    ensures DistinctPortKeys(UniqueByPrivatePort(ports))
  {
    var r := UniqueByPrivatePort(ports);
    forall i, j | 0 <= i < j < |r|
      ensures r[i].privatePort != r[j].privatePort
    {
      assert FirstIndex(ports, r[i].privatePort) < FirstIndex(ports, r[j].privatePort);
    }
  }

  // ---------------------------------------------------------------------
  // Filtering and narrowing (the `filter_map` of get_proxyable_containers)
  // ---------------------------------------------------------------------

  /**
   * A port is proxyable when it has a public port and its type is exactly
   * "tcp" or "udp"; both numbers are narrowed with `as u16`.
   */
  function SelectPort(p: ContainerPort): (r: Option<ProxyPort>)
    ensures r.Some? <==> p.publicPort.Some? && (p.typ == "tcp" || p.typ == "udp")
    ensures r.Some? ==> (&& r.value.privatePort == AsU16(p.privatePort)
                         && r.value.publicPort == AsU16(p.publicPort.value)
                         && ProtocolName(r.value.protocol) == p.typ)
  {
    match p.publicPort
    case None => None
    case Some(public) =>
      match ParseProtocol(p.typ)
      case None => None
      case Some(protocol) => Some(ProxyPort(AsU16(public), AsU16(p.privatePort), protocol))
  }

  /** `filter_map(SelectPort)`: one port per kept input, in input order. */
  function SelectPorts(ports: seq<ContainerPort>): (r: seq<ProxyPort>)
    ensures |r| <= |ports|
    ensures forall q :: q in r <==> exists p :: p in ports && SelectPort(p) == Some(q)
    decreases |ports|
  {
    if |ports| == 0 then []
    else
      var rest := SelectPorts(ports[1..]);
      assert forall p :: p in ports <==> p == ports[0] || p in ports[1..];
      match SelectPort(ports[0])
      case None => rest
      case Some(q) => [q] + rest
  }

  /**
   * `SelectPorts` is `filter_map(SelectPort)`: one output per input the
   * filter keeps, in input order, and nothing else.
   */
  lemma {:induction false} SelectPortsFilterMap(ports: seq<ContainerPort>)
    ensures IsFilterMap(SelectPorts(ports), ports, SelectPort)
    decreases |ports|
  {
    if |ports| == 0 {
      FilterMapEmpty(ports, SelectPort);
    } else {
      SelectPortsFilterMap(ports[1..]);
      FilterMapStep(ports, SelectPorts(ports[1..]), SelectPorts(ports), SelectPort);
    }
  }

  /** The ports of one listed container: de-duplicate first, then filter. */
  function ContainerProxyPorts(c: Container): seq<ProxyPort> {
    SelectPorts(UniqueByPrivatePort(c.ports))
  }

  /**
   * `get_proxyable_containers`: one record per input container, in input
   * order, with the id copied, even when every port is filtered out.
   */
  method GetProxyableContainers(containers: seq<Container>) returns (results: seq<ProxyableContainer>)
    ensures |results| == |containers|
    ensures forall i :: 0 <= i < |containers| ==>
              results[i].id == containers[i].id && results[i].ports == ContainerProxyPorts(containers[i])
  {
    results := [];
    for k := 0 to |containers|
      invariant |results| == k
      invariant forall i :: 0 <= i < k ==>
                  results[i].id == containers[i].id && results[i].ports == ContainerProxyPorts(containers[i])
    {
      var container := containers[k];
      var ports := SelectPorts(UniqueByPrivatePort(container.ports));
      results := results + [ProxyableContainer(ports, container.id)];
    }
  }

  /** A port is proxied iff it comes from the first occurrence of its private port and passes the filter. */
  lemma ContainerProxyPortIff(c: Container, q: ProxyPort)
    ensures q in ContainerProxyPorts(c) <==>
            exists i :: IsFirstOccurrence(c.ports, i) && SelectPort(c.ports[i]) == Some(q)
  {
    var u := UniqueByPrivatePort(c.ports);
    if q in ContainerProxyPorts(c) {
      var p :| p in u && SelectPort(p) == Some(q);
      UniqueMembership(c.ports, p);
    }
    if i :| IsFirstOccurrence(c.ports, i) && SelectPort(c.ports[i]) == Some(q) {
      UniqueMembership(c.ports, c.ports[i]);
    }
  }

  /** All private ports already fit in 16 bits, so `as u16` is the identity on them. */
  predicate SixteenBitPorts(c: Container) {
    forall p :: p in c.ports ==> p.privatePort < 0x1_0000
  }

  /**
   * No two proxied ports of a container share a private port, whatever
   * their protocols, provided the 64-bit private ports fit in 16 bits.
   */
  lemma ContainerProxyPortsDistinct(c: Container)
    requires SixteenBitPorts(c)
    ensures DistinctProxyKeys(ContainerProxyPorts(c))
  {
    var u := UniqueByPrivatePort(c.ports);
    assert forall p :: p in u ==> p in c.ports by {
      forall p | p in u ensures p in c.ports {
        var k :| 0 <= k < |u| && u[k] == p;
      }
    }
    SelectPortsDistinct(u);
  }

  lemma SelectedKeysFrom(ps: seq<ContainerPort>)
    requires forall p :: p in ps ==> p.privatePort < 0x1_0000
    ensures forall q :: q in SelectPorts(ps) ==> q.privatePort in PrivatePorts(ps)
  {
    forall q | q in SelectPorts(ps)
      ensures q.privatePort in PrivatePorts(ps)
    {
      var p :| p in ps && SelectPort(p) == Some(q);
    }
  }

  lemma {:induction false} SelectPortsDistinct(ps: seq<ContainerPort>)
    requires DistinctPortKeys(ps)
    requires forall p :: p in ps ==> p.privatePort < 0x1_0000
    ensures DistinctProxyKeys(SelectPorts(ps))
    decreases |ps|
  {
    if |ps| > 0 {
      var t := ps[1..];
      assert forall p :: p in t ==> p in ps;
      SelectPortsDistinct(t);
      SelectedKeysFrom(t);
      var rest := SelectPorts(t);
      assert ps[0].privatePort !in PrivatePorts(t) by {
        forall p | p in t ensures p.privatePort != ps[0].privatePort {
          var k :| 0 <= k < |t| && t[k] == p;
          assert ps[k + 1] == p;
        }
      }
      var r := SelectPorts(ps);
      if SelectPort(ps[0]).Some? {
        var q0 := SelectPort(ps[0]).value;
        assert r == [q0] + rest;
        forall i, j | 0 <= i < j < |r|
          ensures r[i].privatePort != r[j].privatePort
        {
          assert r[j] == rest[j - 1];
          if i > 0 {
            assert r[i] == rest[i - 1];
          } else {
            assert r[j] in rest;
          }
        }
      } else {
        assert r == rest;
        forall i, j | 0 <= i < j < |r|
          ensures r[i].privatePort != r[j].privatePort
        {
          assert r[i] == rest[i] && r[j] == rest[j];
        }
      }
    }
  }

  /**
   * De-duplication happens before filtering: when the first port with some
   * private port is filtered out, no later port with that private port is
   * proxied either.
   */
  lemma ShadowedPortDropped(c: Container, i: nat)
    requires SixteenBitPorts(c)
    requires IsFirstOccurrence(c.ports, i) && SelectPort(c.ports[i]).None?
    ensures forall q :: q in ContainerProxyPorts(c) ==> q.privatePort != c.ports[i].privatePort
  {
    forall q | q in ContainerProxyPorts(c)
      ensures q.privatePort != c.ports[i].privatePort
    {
      ContainerProxyPortIff(c, q);
      var j :| IsFirstOccurrence(c.ports, j) && SelectPort(c.ports[j]) == Some(q);
      assert c.ports[j] in c.ports;
    }
  }

  /** "53/tcp" listed before "53/udp": only the TCP port is proxied. */
  lemma TcpShadowsUdp()
    ensures ContainerProxyPorts(Container("c", [ContainerPort(53, Some(5353), "tcp"), ContainerPort(53, Some(5353), "udp")]))
         == [ProxyPort(5353, 53, Tcp)]
  {
    var ports := [ContainerPort(53, Some(5353), "tcp"), ContainerPort(53, Some(5353), "udp")];
    assert ports[1..] == [ports[1]];
    assert ports[1..][1..] == [];
    assert UniqueByPrivatePort(ports) == [ports[0]];
    assert [ports[0]][1..] == [];
  }

  /**
   * Without the 16-bit hypothesis the claim fails: private ports 80 and 65616
   * are different keys for `unique_by`, but both narrow to 80.
   */
  lemma NarrowingCollision()
    ensures var r := ContainerProxyPorts(Container("c", [ContainerPort(80, Some(8080), "tcp"), ContainerPort(65616, Some(8081), "tcp")]));
            |r| == 2 && r[0].privatePort == r[1].privatePort == 80
  {
    var ports := [ContainerPort(80, Some(8080), "tcp"), ContainerPort(65616, Some(8081), "tcp")];
    assert ports[1..] == [ports[1]];
    assert ports[1..][1..] == [];
    assert UniqueFrom(ports[1..][1..], {80, 65616}) == [];
    assert UniqueByPrivatePort(ports) == ports;
    assert ports[1..] == [ports[1]];
  }

  // ---------------------------------------------------------------------
  // Container details: `host_config.port_bindings`
  // ---------------------------------------------------------------------

  /**
   * One `port_bindings` entry: a key such as "8080/tcp" and its bindings, each
   * a string map that may hold "HostPort". The entries come in the hash map's
   * iteration order, which is unspecified.
   */
  datatype BindingEntry = BindingEntry(key: string, bindings: seq<map<string, string>>)

  datatype ContainerDetails = ContainerDetails(id: string, portBindings: Option<seq<BindingEntry>>)

  /**
   * The private port and protocol of a key: `split('/')` must give exactly two
   * parts, the first must parse as u16 and the second must name a protocol.
   */
  function ParseKey(key: string): (r: Option<(uint16, Protocol)>)
    ensures r.Some? ==> Count(key, '/') == 1
  {
    var parts := Split(key, '/');
    if |parts| != 2 then None
    else
      match ParseU16(parts[0])
      case None => None
      case Some(port) =>
        match ParseProtocol(parts[1])
        case None => None
        case Some(protocol) => Some((port, protocol))
  }

  /** A key is accepted exactly when it is "<u16>/tcp" or "<u16>/udp". */
  lemma ParseKeyIff(key: string, port: uint16, protocol: Protocol)
    ensures ParseKey(key) == Some((port, protocol)) <==>
            exists a :: key == a + "/" + ProtocolName(protocol) && ParseU16(a) == Some(port)
  {
    if ParseKey(key) == Some((port, protocol)) {
      var parts := Split(key, '/');
      JoinSplit(key, '/');
      assert parts[1..][1..] == [];
      assert key == parts[0] + "/" + ProtocolName(protocol);
    }
    if a :| key == a + "/" + ProtocolName(protocol) && ParseU16(a) == Some(port) {
      assert '/' !in a;
      assert '/' !in ProtocolName(protocol);
      SplitPair(a, ProtocolName(protocol), '/');
    }
  }

  /** Rendering a key the way Docker does and parsing it gives the port and protocol back. */
  lemma KeyRoundTrip(port: uint16, protocol: Protocol)
    ensures ParseKey(DecimalString(port) + "/" + ProtocolName(protocol)) == Some((port, protocol))
  {
    FormatThenParse("", port);
    assert "" + DecimalString(port) == DecimalString(port);
    ParseKeyIff(DecimalString(port) + "/" + ProtocolName(protocol), port, protocol);
  }

  /** A binding's host port: `binding.get("HostPort")?.parse::<u16>().ok()`. */
  function HostPort(binding: map<string, string>): Option<uint16> {
    if "HostPort" in binding then ParseU16(binding["HostPort"]) else None
  }

  /** The number of bindings whose host port parses. */
  function CountHostPorts(bindings: seq<map<string, string>>): nat
    decreases |bindings|
  {
    if |bindings| == 0 then 0
    else (if HostPort(bindings[0]).Some? then 1 else 0) + CountHostPorts(bindings[1..])
  }

  /** The port a single binding yields under an accepted key. */
  function BindingPort(privatePort: uint16, protocol: Protocol): map<string, string> -> Option<ProxyPort> {
    b => match HostPort(b)
         case None => None
         case Some(public) => Some(ProxyPort(public, privatePort, protocol))
  }

  /**
   * The ports of one accepted key: one per binding whose host port parses,
   * in binding order, with the key's private port and protocol, duplicates kept.
   */
  function BindingPorts(privatePort: uint16, protocol: Protocol, bindings: seq<map<string, string>>)
    : (r: seq<ProxyPort>)
    ensures |r| == CountHostPorts(bindings)
    ensures forall q :: q in r <==>
              q.privatePort == privatePort && q.protocol == protocol
              && exists b :: b in bindings && HostPort(b) == Some(q.publicPort)
    decreases |bindings|
  {
    if |bindings| == 0 then []
    else
      var rest := BindingPorts(privatePort, protocol, bindings[1..]);
      assert forall b :: b in bindings <==> b == bindings[0] || b in bindings[1..];
      match HostPort(bindings[0])
      case None => rest
      case Some(public) => [ProxyPort(public, privatePort, protocol)] + rest
  }

  /**
   * `BindingPorts` is `filter_map(BindingPort(..))` over the bindings: one
   * port per binding with a parseable host port, in binding order.
   */
  lemma {:induction false} BindingPortsFilterMap(privatePort: uint16, protocol: Protocol, bindings: seq<map<string, string>>)
    ensures IsFilterMap(BindingPorts(privatePort, protocol, bindings), bindings, BindingPort(privatePort, protocol))
    decreases |bindings|
  {
    if |bindings| == 0 {
      FilterMapEmpty(bindings, BindingPort(privatePort, protocol));
    } else {
      var g := BindingPort(privatePort, protocol);
      BindingPortsFilterMap(privatePort, protocol, bindings[1..]);
      FilterMapStep(bindings, BindingPorts(privatePort, protocol, bindings[1..]), BindingPorts(privatePort, protocol, bindings), g);
    }
  }

  /** What one entry contributes: nothing unless its key is accepted. */
  function EntryPorts(e: BindingEntry): (r: seq<ProxyPort>) {
    match ParseKey(e.key)
    case None => []
    case Some((privatePort, protocol)) => BindingPorts(privatePort, protocol, e.bindings)
  }

  /** Some entry contributes `q`. */
  ghost predicate ContributedBy(q: ProxyPort, entries: seq<BindingEntry>) {
    exists e :: e in entries && q in EntryPorts(e)
  }

  /** The `flatten` of the per-entry port lists, in entry order. */
  function FlattenEntries(entries: seq<BindingEntry>): (r: seq<ProxyPort>)
    ensures forall q :: q in r <==> ContributedBy(q, entries)
    decreases |entries|
  {
    if |entries| == 0 then []
    else
      assert forall e :: e in entries <==> e == entries[0] || e in entries[1..];
      EntryPorts(entries[0]) + FlattenEntries(entries[1..])
  }

  /** `get_proxyable_information`: the id is copied; absent bindings give no ports. */
  function GetProxyableInformation(details: ContainerDetails): (r: ProxyableContainer)
    ensures r.id == details.id
    ensures details.portBindings.None? ==> r.ports == []
    ensures details.portBindings.Some? ==>
              forall q :: q in r.ports <==> exists e :: e in details.portBindings.value && q in EntryPorts(e)
  {
    var ports := match details.portBindings
      case None => []
      case Some(entries) => FlattenEntries(entries);
    ProxyableContainer(ports, details.id)
  }

  /** Helper: one unfolding of `FlattenEntries`, kept apart to bound the solver's work. */
  lemma FlattenUnfold(entries: seq<BindingEntry>)
    requires |entries| > 0
    ensures FlattenEntries(entries) == EntryPorts(entries[0]) + FlattenEntries(entries[1..])
  {
  }

  /**
   * Flattening keeps every entry's ports, duplicates included, in entry
   * order: splitting the entries splits the result.
   */
  lemma {:induction false} FlattenEntriesConcat(a: seq<BindingEntry>, b: seq<BindingEntry>)
    ensures FlattenEntries(a + b) == FlattenEntries(a) + FlattenEntries(b)
    decreases |a|
  {
    if |a| == 0 {
      assert a + b == b;
      assert FlattenEntries(a) == [];
    } else {
      FlattenEntriesConcat(a[1..], b);
      FlattenStep(a, b, EntryPorts(a[0]));
    }
  }

  /** Helper: the inductive step of `FlattenEntriesConcat`, kept apart to bound the solver's work. */
  lemma FlattenStep(a: seq<BindingEntry>, b: seq<BindingEntry>, head: seq<ProxyPort>)
    requires |a| > 0 && head == EntryPorts(a[0])
    requires FlattenEntries(a[1..] + b) == FlattenEntries(a[1..]) + FlattenEntries(b)
    ensures FlattenEntries(a + b) == FlattenEntries(a) + FlattenEntries(b)
  {
    FlattenAppendUnfold(a, b);
    FlattenUnfold(a);
    ConcatAssociative(head, FlattenEntries(a[1..]), FlattenEntries(b));
  }

  /** Helper: `FlattenUnfold` for an appended sequence, kept apart to bound the solver's work. */
  lemma FlattenAppendUnfold(a: seq<BindingEntry>, b: seq<BindingEntry>)
    requires |a| > 0
    ensures FlattenEntries(a + b) == EntryPorts(a[0]) + FlattenEntries(a[1..] + b)
  {
    var ab := a + b;
    assert ab[0] == a[0] && ab[1..] == a[1..] + b;
    FlattenUnfold(ab);
  }

  /** A single entry contributes exactly its own ports. */
  lemma FlattenEntriesSingle(e: BindingEntry)
    ensures FlattenEntries([e]) == EntryPorts(e)
  {
    FlattenUnfold([e]);
    assert [e][1..] == [];
  }

  /**
   * The ports of the details are the ports of each entry, concatenated in
   * entry order with nothing merged: splitting the entries splits the ports.
   */
  lemma InformationConcat(id: string, a: seq<BindingEntry>, b: seq<BindingEntry>)
    ensures GetProxyableInformation(ContainerDetails(id, Some(a + b))).ports
         == GetProxyableInformation(ContainerDetails(id, Some(a))).ports
            + GetProxyableInformation(ContainerDetails(id, Some(b))).ports
    ensures GetProxyableInformation(ContainerDetails(id, Some(a[..0]))).ports == []
  {
    FlattenEntriesConcat(a, b);
  }

  /** A one-entry mapping yields exactly that entry's ports. */
  lemma InformationSingle(id: string, e: BindingEntry)
    ensures GetProxyableInformation(ContainerDetails(id, Some([e]))).ports == EntryPorts(e)
  {
    FlattenEntriesSingle(e);
  }

  /**
   * Keys "80/tcp" and "080/tcp" are distinct map keys that name the same
   * port: with one binding each, the port comes out twice.
   */
  lemma DuplicateKeysKept(id: string, b: map<string, string>)
    requires HostPort(b).Some?
    ensures var q := ProxyPort(HostPort(b).value, 80, Tcp);
            GetProxyableInformation(ContainerDetails(id, Some([BindingEntry("80/tcp", [b]), BindingEntry("080/tcp", [b])]))).ports
            == [q, q]
  {
    var e1, e2 := BindingEntry("80/tcp", [b]), BindingEntry("080/tcp", [b]);
    var q := ProxyPort(HostPort(b).value, 80, Tcp);
    PaddedKeys();
    SingleBinding(80, Tcp, b);
    assert EntryPorts(e1) == [q] && EntryPorts(e2) == [q];
    FlattenEntriesConcat([e1], [e2]);
    FlattenEntriesSingle(e1);
    FlattenEntriesSingle(e2);
    assert [e1] + [e2] == [e1, e2];
  }

  /** Helper: both spellings of port 80 are accepted keys. */
  lemma PaddedKeys()
    ensures ParseKey("80/tcp") == Some((80, Tcp))
    ensures ParseKey("080/tcp") == Some((80, Tcp))
  {
    KeyRoundTrip(80, Tcp);
    assert DecimalString(80) + "/" + ProtocolName(Tcp) == "80/tcp";
    assert IsZeroPadding("0");
    FormatThenParse("0", 80);
    assert "0" + DecimalString(80) == "080";
    ParseKeyIff("080/tcp", 80, Tcp);
    assert "080/tcp" == "080" + "/" + "tcp";
  }

  /** Helper: a single binding with a host port yields that one port. */
  lemma SingleBinding(privatePort: uint16, protocol: Protocol, b: map<string, string>)
    requires HostPort(b).Some?
    ensures BindingPorts(privatePort, protocol, [b]) == [ProxyPort(HostPort(b).value, privatePort, protocol)]
  {
    assert [b][1..] == [];
  }

  /**
   * A port comes out of the details exactly when some entry's key is
   * "<private>/<protocol>" and one of its bindings has that host port.
   */
  lemma InformationPortIff(details: ContainerDetails, q: ProxyPort)
    ensures q in GetProxyableInformation(details).ports <==>
            && details.portBindings.Some?
            && exists e, b :: && e in details.portBindings.value
                              && ParseKey(e.key) == Some((q.privatePort, q.protocol))
                              && b in e.bindings && HostPort(b) == Some(q.publicPort)
  {
  }

  /** No de-duplication on this path: two bindings with one host port give the port twice. */
  lemma DuplicateBindingsKept(privatePort: uint16, protocol: Protocol, b: map<string, string>)
    requires HostPort(b).Some?
    ensures BindingPorts(privatePort, protocol, [b, b])
         == [ProxyPort(HostPort(b).value, privatePort, protocol), ProxyPort(HostPort(b).value, privatePort, protocol)]
  {
    assert [b, b][1..] == [b];
    assert [b][1..] == [];
  }
}

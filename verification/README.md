# passtru port-proxy bookkeeping, modelled in Dafny

passtru republishes the ports of running Docker containers on random loopback
addresses and relays traffic to each container's published port. This project
models the bookkeeping and selection logic around those relays:

- **Port selection** (`Info`, `Startup`): container port records are
  de-duplicated by private port (first one wins), filtered (a public port and
  a `"tcp"`/`"udp"` type are required) and narrowed to 16 bits; Docker
  `port_bindings` keys such as `"8080/tcp"` are split on `/` and parsed with
  Rust's `str::parse::<u16>` semantics (`Numeric`, `Strings`).
- **The proxy registry** (`Proxy`): `ProxyManager` as a map from container id
  to relay handles. A spawned relay is an abstract handle recording its task
  serial, the address it binds (a fresh random loopback address at the
  private port) and the address it relays to (127.0.0.1 at the public port).
  Aborting a relay records its handle in an `aborted` set.
- **Address allocation** (`Connection`, `Ip`): `random_private_ip` builds
  127.a.b.c from three samples in 0..255 (255 excluded), supplied by the
  caller. The bind-retry loops run against an oracle: for each attempt, the
  set of endpoints whose bind would fail. `get_connection` retries one fixed
  address; `get_listener` draws a new address every attempt. A finite oracle
  either yields the first successful bind or shows the loop still retrying;
  neither loop has an error result. Each failed attempt logs its address once
  and sleeps 500 ms once, recorded as a list of logged addresses and a total
  of milliseconds slept.

The source has three equivalent copies of `random_private_ip`
(src/connection.rs:41-50, src/ip.rs:26-35, src/main.rs:120-128). The copy in
src/main.rs samples with `gen_range(0..255)`, the others with
`Uniform::from(0..255)`; all draw from 0..=254, and all are
`Connection.RandomPrivateIp`. The blocking `get_listener` of
src/main.rs:103-118 is the same loop as the asynchronous one of
src/ip.rs:9-24; both are `Ip.GetListener`. The type src/proxy.rs calls
`Inbound` is the `Listener` of src/connection.rs:13-16.

Two behaviours of the registry are worth knowing. It inserts an entry for a
new container id even when every port was skipped, so the id can map to an
empty list of handles (src/proxy.rs:35,50). Ports whose private and public
numbers are equal are always skipped (src/proxy.rs:42-44).

## Model

| member | source | states |
|---|---|---|
| `Numeric.AsU16` | src/info.rs:42-43 | `as u16` leaves values below 65536 unchanged |
| `Numeric.ParseU16` | src/info.rs:68 | `parse::<u16>` rejects the empty string, a lone `+` and any leading `-`; an accepted string is an optional `+` followed by one or more decimal digits |
| `Numeric.FormatThenParse` | src/info.rs:68 | every u16 rendered in decimal, after any number of leading zeros and with or without a leading `+`, parses back to itself; with `Numeric.ParseThenFormat` this describes exactly the strings that parse to a given value |
| `Numeric.ParseThenFormat` | src/info.rs:68 | every accepted string is an optional `+`, then zeros, then the canonical decimal rendering of the parsed value |
| `Sequences.FilterMapUnique` | src/info.rs:27 | the `filter_map` description determines its output: two outputs that both meet it are equal |
| `Strings.Split` | src/info.rs:66 | `split('/')` yields one more part than there are separators, and no part contains the separator |
| `Strings.JoinSplit` | src/info.rs:66 | joining the parts of `split` with the separator gives back the original string |
| `Strings.SplitPair` | src/info.rs:66 | `a/b` with separator-free `a` and `b` splits into exactly `[a, b]` |
| `Connection.RandomPrivateIp` | src/connection.rs:41-50 | the address has first octet 127 and the other three octets in 0..=254 |
| `Connection.RandomPrivateIpRange` | src/ip.rs:26-35 | an address can be drawn iff it is 127.x.y.z with x, y, z at most 254, and different samples give different addresses |
| `Connection.GetConnection` | src/connection.rs:18-39 | binds iff some attempt finds the address free, at the first such attempt; every attempt and every logged failure uses the given address; the socket is TCP for `Tcp` and UDP for `Udp`; one 500 ms sleep per failure; no error result |
| `Ip.GetListener` | src/ip.rs:9-24 | binds a TCP listener iff some attempt's freshly drawn address at `port` is free, at the first such attempt; each failed attempt logged its own drawn address; the port never changes; one 500 ms sleep per failure; no error result |
| `Info.ParseProtocol` | src/info.rs:35-39 | a protocol is recognised exactly for the strings `"tcp"` and `"udp"` |
| `Info.ProtocolName` | src/info.rs:70-74 | the protocol's name parses back to the protocol |
| `Info.UniqueFrom` | src/info.rs:23-26 | `unique_by` with a set of already seen keys yields exactly the keys not yet seen |
| `Info.UniqueFromFirst` | src/info.rs:26 | each yielded port is the first input port with its private port, and yielded ports keep input order |
| `Info.UniqueByPrivatePort` | src/main.rs:21-24 | de-duplication keeps every private port, only the first port of each, in input order |
| `Info.UniqueMembership` | src/info.rs:26 | a port survives de-duplication iff it is the first occurrence of its private port |
| `Info.UniqueDistinct` | src/info.rs:26 | no two surviving ports share a private port, whatever their protocols |
| `Info.SelectPort` | src/info.rs:27-46 | a port is kept iff it has a public port and its type is exactly `"tcp"` or `"udp"`; its numbers are narrowed with `as u16` |
| `Info.SelectPorts` | src/info.rs:27-47 | `filter_map` yields at most one port per input and exactly the images of the kept ports |
| `Info.SelectPortsFilterMap` | src/info.rs:27-47 | the output is the `filter_map` of the input: the image of each kept port, once per kept port, in input order, and nothing else |
| `Info.GetProxyableContainers` | src/info.rs:19-56 | one record per input container, in input order, with the id copied, including containers whose ports are all filtered out |
| `Info.ContainerProxyPortIff` | src/info.rs:22-47 | a port is proxied iff it is the image of the first occurrence of some private port and that occurrence passes the filter |
| `Info.ContainerProxyPortsDistinct` | src/info.rs:23-47 | with 16-bit private ports, no two proxied ports of one container share a private port |
| `Info.ShadowedPortDropped` | src/info.rs:26-39 | de-duplication runs before filtering: a filtered-out first occurrence removes every later port with that private port (for private ports below 65536) |
| `Info.TcpShadowsUdp` | src/info.rs:26 | `53/tcp` listed before `53/udp` leaves only the TCP port |
| `Info.NarrowingCollision` | src/info.rs:42-43 | private ports 80 and 65616 both survive de-duplication and both narrow to 80 |
| `Info.ParseKey` | src/info.rs:66-74 | an accepted key contains exactly one `/` |
| `Info.ParseKeyIff` | src/info.rs:66-74 | a key is accepted with port p and protocol t iff it is `a/tcp` or `a/udp` for an `a` that parses as u16 to p |
| `Info.KeyRoundTrip` | src/info.rs:66-74 | the Docker spelling `<port>/<protocol>` parses back to the port and protocol |
| `Info.BindingPorts` | src/info.rs:76-87 | one port per binding whose `HostPort` parses as u16, carrying the key's private port and protocol, and nothing else |
| `Info.BindingPortsFilterMap` | src/info.rs:76-87 | the output is the `filter_map` of the bindings: one port per binding whose `HostPort` parses, in binding order, each carrying that binding's host port |
| `Info.DuplicateBindingsKept` | src/info.rs:76-89 | two bindings with the same host port give the same port twice: no de-duplication on this path |
| `Info.FlattenEntries` | src/info.rs:59-92 | the flattened list holds exactly the ports some entry contributes |
| `Info.FlattenEntriesConcat` | src/info.rs:59-92 | flattening splits over any split of the entries: every entry's ports are kept, duplicates included, in entry order |
| `Info.FlattenEntriesSingle` | src/info.rs:59-89 | a single entry contributes exactly its own ports |
| `Info.GetProxyableInformation` | src/info.rs:58-98 | the id is copied; absent `port_bindings` give no ports; otherwise exactly the ports the entries contribute |
| `Info.InformationConcat` | src/info.rs:58-98 | the ports of the details are the ports of each entry concatenated in entry order, nothing merged; no entries give no ports |
| `Info.InformationSingle` | src/info.rs:58-98 | a one-entry mapping yields exactly that entry's ports |
| `Info.DuplicateKeysKept` | src/info.rs:59-92 | keys `80/tcp` and `080/tcp` with one binding each give the same port twice: nothing is de-duplicated across entries |
| `Info.InformationPortIff` | src/info.rs:58-98 | a port comes out iff some entry's key names its private port and protocol and one of that entry's bindings has its host port |
| `Proxy.RelayedPorts` | src/proxy.rs:41-44 | at most one relay per port, and a port gets a relay iff its private and public numbers differ |
| `Proxy.RelayedPortsFilterMap` | src/proxy.rs:41-44 | the relayed ports are the input ports whose numbers differ, once per occurrence, in input order, and nothing else |
| `Proxy.StartProxy` | src/proxy.rs:65-74 | the relay binds a random private address at the private port and targets 127.0.0.1 at the public port with the port's protocol |
| `Proxy.SpawnAll` | src/proxy.rs:41-48 | one handle per relayed port, in port order, with consecutive task serials, each relaying its port |
| `Proxy.New` | src/proxy.rs:21-25 | the registry starts empty, with nothing aborted, and satisfies the registry invariant |
| `Proxy.ContainerCreated` | src/proxy.rs:27-53 | never an error; a registered id leaves the manager unchanged; otherwise exactly the new id is added, mapped to one handle per relayed port in order, other entries and aborts untouched |
| `Proxy.ContainerRemoved` | src/proxy.rs:55-62 | the id's entry is erased and every handle in it is aborted; other entries are untouched; an absent id changes nothing |
| `Proxy.SpawnedTaskBind` | src/proxy.rs:80-89 | the spawned task binds its handle's own address, with a TCP listener for TCP and a UDP socket for UDP |
| `Proxy.CreatedPreservesValid` | src/proxy.rs:31-50 | creation keeps the invariant: handles sit under their container's id, have distinct task serials, are not aborted, bind a private candidate address and relay between different port numbers |
| `Proxy.RemovedPreservesValid` | src/proxy.rs:55-61 | removal keeps the same invariant; in particular no live handle is ever aborted |
| `Proxy.CreateIdempotent` | src/proxy.rs:31-33 | a second creation under the same id, whatever its ports, changes nothing and succeeds |
| `Proxy.RemoveIdempotent` | src/proxy.rs:56 | removing twice is the same as removing once |
| `Proxy.RemoveUndoesCreate` | src/proxy.rs:50-61 | removing a freshly created id restores the registry and aborts exactly the handles spawned for it |
| `Startup.PortPassthrough` | src/main.rs:28-39 | a de-duplicated port gets a passthrough iff it has a public port, with both numbers narrowed by `as u16` |
| `Startup.PortsPassthroughs` | src/main.rs:26-40 | the passthroughs of one container are exactly those of its ports that have a public port |
| `Startup.PortsPassthroughsFilterMap` | src/main.rs:26-40 | one passthrough per port with a public port, in port order, and nothing else |
| `Startup.SelectPassthroughs` | src/main.rs:18-41 | the passthroughs are exactly those of the containers' de-duplicated ports |
| `Startup.SelectPassthroughsConcat` | src/main.rs:18-41 | the passthroughs of a listing split at any point are those of the first part followed by those of the second: each container contributes its own passthroughs, in listing order |
| `Startup.SelectPassthroughsSingle` | src/main.rs:18-41 | a one-container listing yields exactly that container's passthroughs |
| `Startup.PassthroughIff` | src/main.rs:18-41 | a passthrough task is spawned iff it comes from the first occurrence of a private port in some container and that port has a public port; the protocol plays no part |
| `Startup.ProxyableIsPassthrough` | src/main.rs:24-39 | every port the src/info.rs selection proxies has a passthrough here, and when every type is tcp or udp the two selections agree on the port numbers |

## Left out

- TCP relaying (`proxy_tcp`, src/proxy.rs:128-157) and UDP relaying (`proxy_udp`, src/proxy.rs:98-126): socket I/O and concurrent copies. Two defects there are not modelled: `unwrap` on accept and on connect (src/proxy.rs:130-133) crashes the task when the container port refuses a connection, and the UDP relay sends the client's datagram through `outbound` back to the client `peer` instead of to the destination (src/proxy.rs:105).
- The forever loop inside the task `start_proxy` spawns (src/proxy.rs:81-94), and the runtime semantics of `tokio::spawn` and `abort`: handles are abstract and abort is recorded in a set.
- The blocking `passthrough` of src/main.rs:65-101 and the join loop of src/main.rs:43-55: blocking socket copies with read timeouts. The spawned tasks only build the `passthrough` futures; the join loop awaits them one at a time, last collected first, and each blocks accepting connections (src/main.rs:79), so an earlier port's passthrough runs only after every later one has returned. The model describes which tasks are spawned, not when they run.
- Randomness, sleeps and logging: random samples and bind outcomes are parameters; sleeps and log lines are a millisecond total and a list of logged addresses.
- The Docker client calls (src/main.rs:13-16) and the shiplift record types, which are plain datatypes here; `port_bindings` is a sequence of entries in the hash map's unspecified order, so the order of the ports is stated relative to that sequence and their count does not depend on it.
- The container event loop, which is commented out in src/main.rs:57-62.
- `Connection.GetConnection`: runs against a finite prefix of attempts; when none of them succeeds the result says the loop is still retrying, where the source would retry forever.
- `Ip.GetListener`: same finite-prefix reading as `GetConnection`.
- `Numeric.AsU16`: the contract states only that values below 65536 are unchanged; the wrap-around for larger values is shown by `Info.NarrowingCollision`.
- `Info.ShadowedPortDropped`: holds only when the 64-bit private ports are below 65536. A later port whose private port differs from the filtered-out one but narrows to the same 16-bit value is still proxied: `[ContainerPort(80, None, "tcp"), ContainerPort(65616, Some(1), "tcp")]` proxies `ProxyPort(1, 80, Tcp)`.
- `Info.ContainerProxyPortsDistinct`: holds only when the 64-bit private ports are below 65536, because `unique_by` compares them before the `as u16` narrowing (`Info.NarrowingCollision` shows the collision otherwise).
- `Proxy.ContainerCreated`: takes one random draw per port, used only for relayed ports, instead of drawing as it goes.

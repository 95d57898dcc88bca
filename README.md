# MPLS baseline configurator — verified model

This project models the deterministic engine of the MPLS fabric designer in
`mpls-baseline-configurator.py`. Given a number of core (P) routers, a number of
edge (PE) routers, two IPv4 pools and a vendor, the engine:

- builds a redundant core ring. Each edge router is dual-homed to two
  consecutive cores, or single-homed when there is only one core
  (`create_topology`).
- hands out loopbacks and point-to-point link addresses from the usable hosts
  of the pools. When a pool does not parse, it falls back to fixed literal
  addresses (`allocate_loopbacks`, `allocate_p2p_links`).
- assembles the fabric. This step builds the router records and walks the
  topology, giving each link end an interface named from a per-router
  counter. It records one connection entry per link and renders one
  configuration per router, keyed by hostname. This is the block of `main`
  that runs when the generate button is pressed. It is modelled as the
  methods `Assembly.Assemble` and `Assembly.Generate`.
- renders a router's configuration, either in Cisco IOS style or as Junos
  set statements (`generate_config`).

## Modules

- `Arith`: Small arithmetic facts: monotonicity of multiplication and uniqueness of the quotient and remainder.
- `Wrappers`: `Option`, the outcome of parsing an address pool.
- `Text`: decimal rendering `Dec`, which behaves like Python's `str(int)`; newline-terminated joining of lines and the matching split.
- `Ipv4`: Addresses as naturals below 2^32; networks as a base and a prefix length; `Hosts`, which behaves like `IPv4Network.hosts()`; `Render`, which behaves like `str(IPv4Address)`.
- `Allocator`: `AllocateLoopbacks` and `AllocateP2PLinks`. Each takes `Option<Network>`, the outcome of parsing the pool; `None` stands for a `ValueError`.
- `TopologyBuilder`: The method `CreateTopology`, written with the source's loops, proved equal to the closed-form `Topology`.
- `Records`: Router records, interface bindings, connection entries, and hostnames built from a `Draw`.
- `ConfigGen`: The method `GenerateConfig`, written with the source's accumulation loop, proved equal to `Config`, which joins `ConfigLines`.
- `Assembly`: The extracted assembly block: router records, a pass over the links that updates the interface and counter maps, connection entries, and the configuration dictionary.

## Model

| member | source | states |
|---|---|---|
| `TopologyBuilder.CreateTopology` | mpls-baseline-configurator.py:33-53 | The list built by the two append loops is exactly `Topology(numP, numPE)`: ring link k is (k, (k+1) mod numP), then each edge router's one or two attachments in edge-router order. |
| `TopologyBuilder.TopologyShape` | mpls-baseline-configurator.py:38-53 | There are numP + 2·numPE links with two or more cores and numPE links with one core. The first numP links are (i, (i+1) mod numP). Edge router i contributes (i mod numP, numP+i), then ((i+1) mod numP, numP+i). With one core, link i is (0, 1+i). |
| `TopologyBuilder.TopologyEndpoints` | mpls-baseline-configurator.py:40-52 | Every link has both ends below numP + numPE, and its two ends are different routers. |
| `TopologyBuilder.EdgeDualHomed` | mpls-baseline-configurator.py:34-36 | With two or more cores, edge router numP+i is linked to core i mod numP and to core (i+1) mod numP, and those two cores differ. |
| `TopologyBuilder.RingIsCycle` | mpls-baseline-configurator.py:39-43 | The ring is one cycle: link c leaves core c for core c+1, or for core 0 when c is the last core. The link before it, which is the last link for core 0, enters core c. |
| `TopologyBuilder.ThreeCoresTwoEdges` | mpls-baseline-configurator.py:38-53 | Three cores and two edge routers give [(0,1),(1,2),(2,0),(0,3),(1,3),(1,4),(2,4)]. |
| `TopologyBuilder.EdgeDegree` | mpls-baseline-configurator.py:46-52 | Every edge router has exactly two link ends when there are two or more cores, and exactly one when there is a single core. |
| `TopologyBuilder.EdgeDegreeUpTo` | mpls-baseline-configurator.py:46-52 | Counts the link ends at edge router numP+i among the first m links: none before its block, then one per link of the block. |
| `TopologyBuilder.LinkTouchesEdge` | mpls-baseline-configurator.py:46-52 | A link never starts at an edge router. It ends at edge router numP+i exactly when it lies in that router's block of attachments. |
| `TopologyBuilder.SingleCore` | mpls-baseline-configurator.py:40-52 | With a single core there is no ring, and edge router 1+i is attached to core 0 by link i. |
| `TopologyBuilder.TwoCoreRing` | mpls-baseline-configurator.py:40-43 | With two cores the ring consists of two parallel links, (0,1) and (1,0). |
| `TopologyBuilder.SuccessorMod` | mpls-baseline-configurator.py:42 | The successor index on the ring wraps from numP−1 to 0 and otherwise adds one. |
| `Allocator.AllocateLoopbacks` | mpls-baseline-configurator.py:18-23 | The result has n entries when the pool does not parse, and min(n, number of usable hosts) entries otherwise. |
| `Allocator.LoopbacksFromPool` | mpls-baseline-configurator.py:18-23 | On a parse failure, entry i is "10.255.0." followed by i+1. Otherwise entry i is the rendered i-th host. All entries lie inside the network in strictly ascending order, with n of them whenever the pool has n hosts. |
| `Allocator.LoopbacksDistinct` | mpls-baseline-configurator.py:18-23 | No loopback is handed out twice, on either path. |
| `Allocator.AllocateP2PLinks` | mpls-baseline-configurator.py:25-31 | Exactly n pairs are returned on every path. |
| `Allocator.LinksAllOrNothing` | mpls-baseline-configurator.py:25-31 | If the pool does not parse or has fewer than 2n hosts (the IndexError path), every pair is ("10.0.0.1", "10.0.0.2"). Otherwise pair k is the rendered hosts 2k and 2k+1, which are adjacent addresses inside the network. |
| `Allocator.LinkFromPool` | mpls-baseline-configurator.py:27-29 | For a pool that fits, pair k is hosts 2k and 2k+1 of the pool, rendered, adjacent and inside the network. |
| `Allocator.LinkPair` | mpls-baseline-configurator.py:29 | For a pool that fits, pair k is the 2k-th and (2k+1)-th host texts. |
| `Allocator.LinksDistinct` | mpls-baseline-configurator.py:25-29 | For a pool that fits, all 2n link addresses are pairwise different, both within a link and across links. |
| `Allocator.PairsDisjoint` | mpls-baseline-configurator.py:29 | Consecutive pairs taken from distinct texts share no text. |
| `Allocator.FallbackLinksCollide` | mpls-baseline-configurator.py:30-31 | On the fallback path every link gets the same address pair. |
| `Allocator.HostTextsDistinct` | mpls-baseline-configurator.py:21 | Different hosts of a network render to different text. |
| `Ipv4.Hosts` | mpls-baseline-configurator.py:21 | The usable hosts are HostCount consecutive addresses from FirstHost: the single address of a /32, both addresses of a /31, and every address strictly between the network and broadcast addresses otherwise. |
| `Ipv4.HostsInNetwork` | mpls-baseline-configurator.py:21 | Every host lies in the network, strictly between the network and broadcast addresses below /31, and the hosts strictly ascend. |
| `Ipv4.HostBlock` | mpls-baseline-configurator.py:21 | The host block fits inside the network and inside the 32-bit address space. Below /31 it stops one short of the broadcast address. |
| `Ipv4.Render` | mpls-baseline-configurator.py:21 | The text of `str(ip)`: the four octets of the address in decimal, most significant first, joined by dots. The first octet is below 256, so the text has seven to fifteen characters. |
| `Ipv4.RenderInjective` | mpls-baseline-configurator.py:21 | Two addresses whose dotted-quad texts are equal are equal. |
| `Ipv4.DottedQuadInjective` | mpls-baseline-configurator.py:21 | The dotted text determines its four numbers. |
| `Ipv4.OctetsInjective` | mpls-baseline-configurator.py:21 | An address is determined by its four octets. |
| `Ipv4.Octets` | mpls-baseline-configurator.py:21 | An address has four octets, each below 256. |
| `Text.Dec` | mpls-baseline-configurator.py:23 | The decimal text of n is made only of digits, has no leading zero and reads back as n. |
| `Text.DecInjective` | mpls-baseline-configurator.py:23 | Different numbers give different decimal texts. |
| `Text.PrefixedDecInjective` | mpls-baseline-configurator.py:23 | A fixed prefix followed by decimal numbers is injective; this is how the fallback loopbacks and the interface names are built. |
| `Text.SplitJoinLines` | mpls-baseline-configurator.py:111-120 | Splitting newline-terminated text made from lines without newlines gives the lines back. |
| `Records.Hostname` | mpls-baseline-configurator.py:13-16 | The type name, a dash, then the draw's letters and digits. The type name holds no dash, so the first dash marks where it ends. |
| `Records.HostnameShape` | mpls-baseline-configurator.py:13-16 | A hostname is the type, a dash, two upper-case letters and two digits, and contains no newline. |
| `Records.HostnameCollision` | mpls-baseline-configurator.py:13-16 | Two hostnames are equal exactly when the types and the draws are equal. |
| `ConfigGen.GenerateConfig` | mpls-baseline-configurator.py:111-120 | The text accumulated with `+=` is `Config(r, ifaces, vendor)`: the header lines, then each binding's stanza in order, each line ended by a newline. |
| `ConfigGen.CiscoLayout` | mpls-baseline-configurator.py:112-115 | For Cisco the lines are: the hostname line; a Loopback0 stanza with the loopback and 255.255.255.255; then, for binding k, lines 5+5k to 9+5k, which hold the interface, its address and mask, `mpls ip`, `no shutdown` and `!`. |
| `ConfigGen.CiscoBindingLines` | mpls-baseline-configurator.py:114-115 | Binding k's stanza occupies lines 5+5k to 9+5k of the Cisco configuration, field by field. |
| `ConfigGen.CiscoInterfaceLines` | mpls-baseline-configurator.py:114-115 | The Cisco interface part has five lines per binding, with binding k's stanza at lines 5k to 5k+4. |
| `ConfigGen.SetLayout` | mpls-baseline-configurator.py:116-119 | For any vendor other than Cisco: the host-name line, the lo0 line with the loopback as a /32, then exactly one set-interfaces line per binding, in order, 2 + n lines in all. |
| `ConfigGen.SetInterfaceLines` | mpls-baseline-configurator.py:118-119 | For a vendor other than Cisco, the interface part has one line per binding, in order. |
| `ConfigGen.ConfigText` | mpls-baseline-configurator.py:111-120 | When no field contains a newline, reading the rendered text back line by line gives exactly the configuration lines. |
| `ConfigGen.HostnameDeclaredOnce` | mpls-baseline-configurator.py:111-120 | The hostname is declared on the first line and on no other line. |
| `ConfigGen.NoStanzaDeclaresHostname` | mpls-baseline-configurator.py:114-119 | No interface line starts with the hostname keyword. |
| `ConfigGen.AppendStanza` | mpls-baseline-configurator.py:114-119 | Appending binding k's stanza text turns the text of the first k bindings into the text of the first k+1. |
| `ConfigGen.CiscoHeaderText` | mpls-baseline-configurator.py:113 | The Cisco header lines, joined, are the text that the source starts from. |
| `ConfigGen.SetHeaderText` | mpls-baseline-configurator.py:117 | The set-style header lines, joined, are the text that the source starts from. |
| `ConfigGen.CiscoStanzaText` | mpls-baseline-configurator.py:115 | A Cisco stanza, joined, is the text that the source appends for one binding. |
| `ConfigGen.SetStanzaText` | mpls-baseline-configurator.py:119 | A set-style stanza, joined, is the text that the source appends for one binding. |
| `Assembly.BuildRouters` | mpls-baseline-configurator.py:147-151 | There are numP + numPE routers, and router i is `RouterAt(numP, i, ...)`. |
| `Assembly.RouterRecord` | mpls-baseline-configurator.py:147-151 | Router i has type P exactly when i < numP. It has index i and the i-th loopback, and its hostname starts with its type and a dash. |
| `Assembly.EmptyTables` | mpls-baseline-configurator.py:153-154 | For each of the total routers, and for no other key, there is an empty interface list and a zero counter. |
| `Assembly.WireLinks` | mpls-baseline-configurator.py:153-173 | After the pass, router v's interface list is `BindingsOf(topology, links, v, ...)`. There is one connection entry per link, in link order, and entry k is `ConnectionAt(topology, k, prefix)`: its endpoints are link k's pair, and each end's interface name is the prefix followed by that end's counter before link k. |
| `Assembly.WireStep` | mpls-baseline-configurator.py:160-173 | One iteration of the pass keeps each interface list equal to `BindingsOf` and each counter equal to the router's degree over the links seen so far. |
| `Assembly.Assemble` | mpls-baseline-configurator.py:147-173 | Combines the router list and the pass. The prefix and the mask are chosen once from the vendor: "Gi0/" and "255.255.255.254" for Cisco, "ge-0/0/" and "31" otherwise. |
| `Assembly.RenderAll` | mpls-baseline-configurator.py:175 | The dictionary is filled router by router with `GenerateConfig`, and equals `ConfigsOf`. |
| `Assembly.Generate` | mpls-baseline-configurator.py:142-175 | One run: the loopbacks, the topology, the links and the assembly, with every output tied to the allocator, topology and configuration specifications. |
| `Assembly.BindingsLength` | mpls-baseline-configurator.py:160-173 | Each router has one interface per link end it holds, so its counter equals its degree. |
| `Assembly.BindingNames` | mpls-baseline-configurator.py:162-166 | When no link is a self-link, a router's interfaces are named prefix+"0", prefix+"1", ... in creation order, and all carry the run's mask. |
| `Assembly.BindingNamesUnique` | mpls-baseline-configurator.py:162-166 | When no link joins a router to itself, interface names are unique within each router. The generated topology has no such link (`TopologyBuilder.TopologyEndpoints`). |
| `Assembly.BindingsPrefix` | mpls-baseline-configurator.py:165-166 | Interface lists only grow by appending, so the lists after m links are prefixes of the final lists. |
| `Assembly.ConnectionBindings` | mpls-baseline-configurator.py:160-171 | When link k does not join a router to itself, connection k agrees with the interface lists. The generated topology has no such link (`TopologyBuilder.TopologyEndpoints`). Its source router holds an interface with the entry's source name and the first address of pair k. Its target router holds an interface with the target name and the second address. |
| `Assembly.FabricInterfaces` | mpls-baseline-configurator.py:153-173 | In a generated fabric, every router has as many interfaces as link ends, with names prefix+"0", prefix+"1", .... An edge router has one interface per core it is homed to. |
| `Assembly.LinkAddressesFromPool` | mpls-baseline-configurator.py:160-166 | With a pool that fits, and when link k does not join a router to itself, the two ends of connection k carry the rendered pool hosts 2k and 2k+1. The generated topology has no self-link (`TopologyBuilder.TopologyEndpoints`). |
| `Assembly.ConfigsKeys` | mpls-baseline-configurator.py:175 | The configuration dictionary's keys are exactly the routers' hostnames. |
| `Assembly.ConfigsLastWins` | mpls-baseline-configurator.py:175 | A hostname's entry is the configuration of the last router carrying that hostname. |
| `Assembly.ConfigsCount` | mpls-baseline-configurator.py:175 | The dictionary has at most one entry per router. It has exactly one per router if and only if the hostnames are distinct, so a repeated draw silently drops a configuration. |
| `Assembly.HostnameSetCount` | mpls-baseline-configurator.py:175 | The set of hostnames is no larger than the router list, and equally large exactly when the hostnames are distinct. |
| `Assembly.GeneratedHostnames` | mpls-baseline-configurator.py:149-151 | Two generated routers share a hostname exactly when they have the same type and the same draw, so a core router and an edge router never collide. |

## Left out

- The Streamlit interface and session state (mpls-baseline-configurator.py:126-141, 177-201) are presentation and I/O. The counts, pools and vendor that the interface collects are parameters of `Assembly.Generate`.
- The ZIP export (mpls-baseline-configurator.py:187-191) is file and byte I/O.
- The pyvis HTML diagram (`generate_topology_html`, mpls-baseline-configurator.py:59-105) is a wrapper around an external visualisation library.
- The random draws of `generate_hostname` are unseeded randomness. Each draw is a `Draw` parameter: two upper-case letters and two digits. Hostnames are not claimed to be unique, because the source does not check this. `Assembly.ConfigsCount` states what a collision costs.
- Parsing a CIDR string with `ipaddress.IPv4Network`, including strict rejection of host bits, is library behaviour. The allocators take the outcome as `Option<Network>`: `Some` is a valid network and `None` is a `ValueError`.
- `TopologyBuilder.CreateTopology`: the source raises ZeroDivisionError when there are edge routers but no core. The precondition `numPE > 0 ==> numP > 0` excludes that input, and the error is not modelled.
- `Assembly.Generate`: the source raises IndexError when the loopback pool yields fewer hosts than routers: at line 149 when it has fewer hosts than core routers, otherwise at line 151. The precondition that the pool yields one loopback per router excludes that case.
- No claim is made that a link's two addresses share one /31. Below /31, `hosts()` skips the network address, so pairs straddle /31 boundaries even though the /31 mask is applied. The model states only what the code hands out.
- Python dictionaries keyed by router index are maps keyed by `nat`. Dictionary insertion order, which only matters for display, is not modelled.
- Text is modelled as sequences of characters. Encoding to bytes happens only in the ZIP export.
- The fallback loopback "10.255.0.<i+1>" is modelled as the source writes it. For more than 255 routers it is not a valid address; nothing claims otherwise.

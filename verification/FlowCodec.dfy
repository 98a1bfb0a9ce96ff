/** The flow-key codec of `datapath/flow.c`: `ovs_flow_from_nlattrs` turns a set of Netlink
    attributes into a flow key, `ovs_flow_to_nlattrs` turns a key into attributes.  Both
    are stated against one relation, `Denotes`, between attribute lists and keys. */
module FlowCodec {
  import opened Wrappers

  type U8 = x: int | 0 <= x < 0x100
  type U16 = x: int | 0 <= x < 0x1_0000
  type U32 = x: int | 0 <= x < 0x1_0000_0000
  type U64 = x: int | 0 <= x < 0x1_0000_0000_0000_0000
  type Mac = nat
  type Ip6 = nat

  const DP_MAX_PORTS: U16 := 65535
  const ETH_P_802_2: U16 := 0x0004
  const ETH_P_MIN: U16 := 1536
  const ETH_P_IP: U16 := 0x0800
  const ETH_P_ARP: U16 := 0x0806
  const ETH_P_8021Q: U16 := 0x8100
  const ETH_P_IPV6: U16 := 0x86DD
  const FRAG_LATER: U8 := 2
  const ICMP: U8 := 1
  const TCP: U8 := 6
  const UDP: U8 := 17
  const ICMPV6: U8 := 58
  const ND_SOLICITATION: U16 := 135
  const ND_ADVERTISEMENT: U16 := 136

  /** VLAN_TAG_PRESENT, bit 12 of the TCI. */
  predicate TagPresent(tci: U16) {
    tci / 0x1000 % 2 == 1
  }

  // ---- Keys ----

  datatype Ip = Ip(proto: U8, tos: U8, ttl: U8, frag: U8)
  datatype Tp = Tp(src: U16, dst: U16)
  datatype NeighbourKey = NeighbourKey(target: Ip6, sll: Mac, tll: Mac)

  const NO_IP := Ip(0, 0, 0, 0)
  const NO_TP := Tp(0, 0)
  const NO_ND := NeighbourKey(0, 0, 0)

  /** The union at the end of struct sw_flow_key, by the member last written; `Blank` is the
      zero fill every decoding starts from. */
  datatype Body =
    | Blank
    | Ipv4Body(src: U32, dst: U32, tp: Tp)
    | ArpBody(sip: U32, tip: U32, sha: Mac, tha: Mac)
    | Ipv6Body(src6: Ip6, dst6: Ip6, flowLabel: U32, tp: Tp, nd: NeighbourKey)

  /** The part of a key a VLAN header can encapsulate. */
  datatype Net = Net(ethType: U16, ip: Ip, body: Body)

  datatype Key = Key(tunId: U64, priority: U32, inPort: U16, ethSrc: Mac, ethDst: Mac, tci: U16, net: Net)

  /** Does the key carry transport fields, and which kind? */
  predicate HasTp(n: Net) {
    (n.ethType == ETH_P_IP || n.ethType == ETH_P_IPV6) && n.ip.frag != FRAG_LATER
    && (n.ip.proto == TCP || n.ip.proto == UDP || HasIcmp(n))
  }

  predicate HasIcmp(n: Net) {
    n.ip.frag != FRAG_LATER &&
    (|| (n.ethType == ETH_P_IP && n.ip.proto == ICMP)
     || (n.ethType == ETH_P_IPV6 && n.ip.proto == ICMPV6))
  }

  predicate HasNd(n: Net) {
    n.body.Ipv6Body? && n.ethType == ETH_P_IPV6 && HasIcmp(n)
    && (n.body.tp.src == ND_SOLICITATION || n.body.tp.src == ND_ADVERTISEMENT)
  }

  predicate ValidTp(n: Net, tp: Tp) {
    && (HasIcmp(n) ==> tp.src < 0x100 && tp.dst < 0x100)
    && (!HasTp(n) ==> tp == NO_TP)
  }

  /** The keys the decoder can produce: fields that the protocol does not have are zero. */
  predicate ValidNet(n: Net) {
    if n.ethType == ETH_P_IP then
      n.body.Ipv4Body? && n.ip.frag <= 2 && ValidTp(n, n.body.tp)
    else if n.ethType == ETH_P_IPV6 then
      n.body.Ipv6Body? && n.ip.frag <= 2 && ValidTp(n, n.body.tp) && (!HasNd(n) ==> n.body.nd == NO_ND)
    else if n.ethType == ETH_P_ARP then
      n.body.ArpBody? && n.ip == NO_IP.(proto := n.ip.proto)
    else
      n.body == Blank && n.ip == NO_IP && (n.ethType == ETH_P_802_2 || n.ethType >= ETH_P_MIN)
  }

  predicate ValidKey(k: Key) {
    ValidNet(k.net) && (k.tci == 0 || TagPresent(k.tci))
  }

  /** SW_FLOW_KEY_OFFSET of the last member in use. */
  function KeyLen(n: Net): nat {
    if n.ethType == ETH_P_IP then (if HasTp(n) then 48 else 44)
    else if n.ethType == ETH_P_IPV6 then (if HasNd(n) then 104 else if HasTp(n) then 76 else 72)
    else if n.ethType == ETH_P_ARP then 56
    else 32
  }

  /** The sizes of the members of struct sw_flow_key, padding included. */
  const PHY_SIZE := 16
  const ETH_SIZE := 16
  const IP_SIZE := 4
  const IPV4_ADDR_SIZE := 8
  const IPV6_ADDR_SIZE := 32
  const LABEL_SIZE := 4
  const TP_SIZE := 4
  const MAC_SIZE := 6
  const ND_TARGET_SIZE := 16

  /** The key length reaches to the end of the last member in use, in the order of the struct. */
  lemma KeyLenIsLayout(n: Net)
    requires ValidNet(n)
    ensures KeyLen(n) == PHY_SIZE + ETH_SIZE + match n.body
              case Blank => 0
              case Ipv4Body(_, _, _) => IP_SIZE + IPV4_ADDR_SIZE + (if HasTp(n) then TP_SIZE else 0)
              case ArpBody(_, _, _, _) => IP_SIZE + IPV4_ADDR_SIZE + 2 * MAC_SIZE
              case Ipv6Body(_, _, _, _, _) =>
                IP_SIZE + IPV6_ADDR_SIZE + LABEL_SIZE + (if HasTp(n) then TP_SIZE else 0) + (if HasNd(n) then ND_TARGET_SIZE + 2 * MAC_SIZE else 0)
  {
  }

  // ---- Attributes ----

  datatype Attr =
    | Encap(attrs: seq<Attr>)
    | Priority(priority: U32)
    | InPort(port: U32)
    | Ethernet(ethernet: EthernetAttr)
    | Vlan(tci: U16)
    | EtherType(ethType: U16)
    | IPv4(ipv4: Ipv4Attr)
    | IPv6(ipv6: Ipv6Attr)
    | Tcp(tp: Tp)
    | Udp(tp: Tp)
    | Icmp(icmp: IcmpAttr)
    | Icmpv6(icmp: IcmpAttr)
    | Arp(arp: ArpAttr)
    | Nd(nd: NeighbourKey)
    | TunId(tunId: U64)
    | Unknown(number: nat)   // a type number without a meaning, and no payload
    | Malformed              // a type number out of range or a payload of the wrong length

  datatype Ipv4Attr = Ipv4Attr(src: U32, dst: U32, ip: Ip)
  datatype Ipv6Attr = Ipv6Attr(src: Ip6, dst: Ip6, flowLabel: U32, ip: Ip)
  datatype IcmpAttr = IcmpAttr(kind: U8, code: U8)
  datatype ArpAttr = ArpAttr(sip: U32, tip: U32, op: U16, sha: Mac, tha: Mac)
  datatype EthernetAttr = EthernetAttr(src: Mac, dst: Mac)

  /** The array `a` together with the bitmap `attrs`: for each attribute type the attribute
      found, if its bit is set. */
  datatype Present = Present(
    encap: Option<seq<Attr>>, priority: Option<U32>, inPort: Option<U32>, ethernet: Option<EthernetAttr>,
    vlan: Option<U16>, ethType: Option<U16>, ipv4: Option<Ipv4Attr>, ipv6: Option<Ipv6Attr>,
    tcp: Option<Tp>, udp: Option<Tp>, icmp: Option<IcmpAttr>, icmpv6: Option<IcmpAttr>,
    arp: Option<ArpAttr>, nd: Option<NeighbourKey>, tunId: Option<U64>, unknown: set<nat>)

  const NOTHING := Present(None, None, None, None, None, None, None, None, None, None, None, None, None, None, None, {})

  /** Records one attribute; refuses a malformed or a repeated one. */
  function Put(m: Present, a: Attr): Result<Present> {
    match a
    case Encap(s) => if m.encap.Some? then Error else Ok(m.(encap := Some(s)))
    case Priority(v) => if m.priority.Some? then Error else Ok(m.(priority := Some(v)))
    case InPort(v) => if m.inPort.Some? then Error else Ok(m.(inPort := Some(v)))
    case Ethernet(v) => if m.ethernet.Some? then Error else Ok(m.(ethernet := Some(v)))
    case Vlan(v) => if m.vlan.Some? then Error else Ok(m.(vlan := Some(v)))
    case EtherType(v) => if m.ethType.Some? then Error else Ok(m.(ethType := Some(v)))
    case IPv4(v) => if m.ipv4.Some? then Error else Ok(m.(ipv4 := Some(v)))
    case IPv6(v) => if m.ipv6.Some? then Error else Ok(m.(ipv6 := Some(v)))
    case Tcp(v) => if m.tcp.Some? then Error else Ok(m.(tcp := Some(v)))
    case Udp(v) => if m.udp.Some? then Error else Ok(m.(udp := Some(v)))
    case Icmp(v) => if m.icmp.Some? then Error else Ok(m.(icmp := Some(v)))
    case Icmpv6(v) => if m.icmpv6.Some? then Error else Ok(m.(icmpv6 := Some(v)))
    case Arp(v) => if m.arp.Some? then Error else Ok(m.(arp := Some(v)))
    case Nd(v) => if m.nd.Some? then Error else Ok(m.(nd := Some(v)))
    case TunId(v) => if m.tunId.Some? then Error else Ok(m.(tunId := Some(v)))
    case Unknown(t) => if t in m.unknown then Error else Ok(m.(unknown := m.unknown + {t}))
    case Malformed => Error
  }

  /** What a whole list says, attribute by attribute. */
  function Parse(s: seq<Attr>): Result<Present> {
    if s == [] then Ok(NOTHING)
    else
      match Parse(s[..|s| - 1])
      case Error => Error
      case Ok(m) => Put(m, s[|s| - 1])
  }

  // ---- Which attributes stand for which key ----

  /** The attributes that describe `n`: nothing missing and nothing besides. */
  function NetAttrs(n: Net): Present
    requires ValidNet(n)
  {
    NOTHING.(
      ethType := if n.ethType == ETH_P_802_2 then None else Some(n.ethType),
      ipv4 := if n.ethType == ETH_P_IP then Some(Ipv4Attr(n.body.src, n.body.dst, n.ip)) else None,
      ipv6 := if n.ethType == ETH_P_IPV6 then Some(Ipv6Attr(n.body.src6, n.body.dst6, n.body.flowLabel, n.ip)) else None,
      arp := if n.ethType == ETH_P_ARP then Some(ArpAttr(n.body.sip, n.body.tip, n.ip.proto, n.body.sha, n.body.tha)) else None,
      tcp := if HasTp(n) && n.ip.proto == TCP then Some(n.body.tp) else None,
      udp := if HasTp(n) && n.ip.proto == UDP then Some(n.body.tp) else None,
      icmp := if n.ethType == ETH_P_IP && HasIcmp(n) then Some(IcmpAttr(n.body.tp.src, n.body.tp.dst)) else None,
      icmpv6 := if n.ethType == ETH_P_IPV6 && HasIcmp(n) then Some(IcmpAttr(n.body.tp.src, n.body.tp.dst)) else None,
      nd := if HasNd(n) then Some(n.body.nd) else None)
  }

  /** The attributes `m` carry `n` under VLAN header `tci`: bare if there is no header; with
      a header, the 802.1Q type, the TCI and `n` nested.  A TCI of zero is a truncated
      header, with nothing nested. */
  predicate Carries(m: Present, tci: U16, n: Net)
    requires ValidNet(n)
  {
    if tci == 0 && n.ethType != ETH_P_8021Q then m == NetAttrs(n)
    else
      && m.encap.Some? && m == NOTHING.(ethType := Some(ETH_P_8021Q), vlan := Some(tci), encap := m.encap)
      && if tci == 0 then m.encap.value == [] else Parse(m.encap.value) == Ok(NetAttrs(n))
  }

  /** The metadata attributes are optional and default to 0, 0 and "no port". */
  predicate Metadata(m: Present, k: Key) {
    && k.priority == (if m.priority.Some? then m.priority.value else 0)
    && k.tunId == (if m.tunId.Some? then m.tunId.value else 0)
    && (if m.inPort.Some? then m.inPort.value < DP_MAX_PORTS && k.inPort == m.inPort.value else k.inPort == DP_MAX_PORTS)
  }

  function WithoutMetadata(m: Present): Present {
    m.(priority := None, tunId := None, inPort := None, ethernet := None)
  }

  /** The attribute list `s` stands for the key `k`. */
  predicate Denotes(s: seq<Attr>, k: Key) {
    ValidKey(k) && Parse(s).Ok? &&
    var m := Parse(s).value;
    Metadata(m, k) && m.ethernet == Some(EthernetAttr(k.ethSrc, k.ethDst)) && Carries(WithoutMetadata(m), k.tci, k.net)
  }

  /** Attributes describe at most one network part ... */
  lemma NetAttrsInjective(n: Net, n': Net)
    requires ValidNet(n) && ValidNet(n') && NetAttrs(n) == NetAttrs(n')
    ensures n == n'
  {
  }

  /** ... and a list stands for at most one key. */
  lemma DenotesOne(s: seq<Attr>, k: Key, k': Key)
    requires Denotes(s, k) && Denotes(s, k')
    ensures k == k'
  {
    if k.tci == 0 && k.net.ethType == ETH_P_8021Q {
    } else {
      NetAttrsInjective(k.net, k'.net);
    }
  }

  // ---- What each attribute of a list says about the key ----

  /** The attribute was recorded in `m`. */
  predicate Recorded(m: Present, a: Attr) {
    match a
    case Encap(s) => m.encap == Some(s)
    case Priority(v) => m.priority == Some(v)
    case InPort(v) => m.inPort == Some(v)
    case Ethernet(v) => m.ethernet == Some(v)
    case Vlan(v) => m.vlan == Some(v)
    case EtherType(v) => m.ethType == Some(v)
    case IPv4(v) => m.ipv4 == Some(v)
    case IPv6(v) => m.ipv6 == Some(v)
    case Tcp(v) => m.tcp == Some(v)
    case Udp(v) => m.udp == Some(v)
    case Icmp(v) => m.icmp == Some(v)
    case Icmpv6(v) => m.icmpv6 == Some(v)
    case Arp(v) => m.arp == Some(v)
    case Nd(v) => m.nd == Some(v)
    case TunId(v) => m.tunId == Some(v)
    case Unknown(t) => t in m.unknown
    case Malformed => false
  }

  lemma PutRecords(m: Present, a: Attr, x: Attr)
    requires Put(m, a).Ok?
    ensures Recorded(Put(m, a).value, x) <==> Recorded(m, x) || x == a
  {
  }

  /** Parsing records exactly the attributes of the list. */
  lemma {:induction false} ParseRecords(s: seq<Attr>, x: Attr)
    requires Parse(s).Ok?
    ensures Recorded(Parse(s).value, x) <==> x in s
  {
    if s != [] {
      var init, a := s[..|s| - 1], s[|s| - 1];
      ParseRecords(init, x);
      PutRecords(Parse(init).value, a, x);
      assert s == init + [a];
    }
  }

  /** What one attribute of a packet's headers says about them.  No other attribute may occur
      among them. */
  predicate Says(a: Attr, n: Net) {
    match a
    case EtherType(t) => n.ethType == t
    case IPv4(v) => n.body.Ipv4Body? && n.body.src == v.src && n.body.dst == v.dst && n.ip == v.ip
    case IPv6(v) =>
      n.body.Ipv6Body? && n.body.src6 == v.src && n.body.dst6 == v.dst && n.body.flowLabel == v.flowLabel && n.ip == v.ip
    case Tcp(v) => (n.body.Ipv4Body? || n.body.Ipv6Body?) && n.ip.proto == TCP && n.body.tp.src == v.src && n.body.tp.dst == v.dst
    case Udp(v) => (n.body.Ipv4Body? || n.body.Ipv6Body?) && n.ip.proto == UDP && n.body.tp.src == v.src && n.body.tp.dst == v.dst
    case Icmp(v) => n.body.Ipv4Body? && n.ip.proto == ICMP && n.body.tp.src == v.kind && n.body.tp.dst == v.code
    case Icmpv6(v) => n.body.Ipv6Body? && n.ip.proto == ICMPV6 && n.body.tp.src == v.kind && n.body.tp.dst == v.code
    case Arp(v) =>
      n.body.ArpBody? && n.body.sip == v.sip && n.body.tip == v.tip && n.body.sha == v.sha && n.body.tha == v.tha && n.ip.proto == v.op
    case Nd(v) => n.body.Ipv6Body? && n.body.nd.target == v.target && n.body.nd.sll == v.sll && n.body.nd.tll == v.tll
    case _ => false
  }

  predicate AllSay(s: seq<Attr>, n: Net) {
    forall i | 0 <= i < |s| :: Says(s[i], n)
  }

  /** The key has a VLAN header, be it truncated. */
  predicate Tagged(k: Key) {
    k.tci != 0 || k.net.ethType == ETH_P_8021Q
  }

  /** What one attribute at the top of a list says about the key. */
  predicate SaysOfKey(a: Attr, k: Key) {
    match a
    case Priority(v) => k.priority == v
    case TunId(v) => k.tunId == v
    case InPort(v) => k.inPort == v
    case Ethernet(v) => k.ethSrc == v.src && k.ethDst == v.dst
    case Vlan(v) => Tagged(k) && k.tci == v
    case Encap(s) => Tagged(k) && (if k.tci == 0 then s == [] else AllSay(s, k.net))
    case _ => if Tagged(k) then a == EtherType(ETH_P_8021Q) else Says(a, k.net)
  }

  /** Every attribute of the list is true of the key. */
  predicate AllTrue(s: seq<Attr>, k: Key) {
    forall i | 0 <= i < |s| :: SaysOfKey(s[i], k)
  }

  /** The list has all attributes that the headers call for. */
  predicate TellsNet(s: seq<Attr>, n: Net) {
    && (n.ethType != ETH_P_802_2 ==> EtherType(n.ethType) in s)
    && (n.ethType == ETH_P_IP ==> n.body.Ipv4Body? && IPv4(Ipv4Attr(n.body.src, n.body.dst, n.ip)) in s)
    && (n.ethType == ETH_P_IPV6 ==> n.body.Ipv6Body? && IPv6(Ipv6Attr(n.body.src6, n.body.dst6, n.body.flowLabel, n.ip)) in s)
    && (n.ethType == ETH_P_ARP ==> n.body.ArpBody? && Arp(ArpAttr(n.body.sip, n.body.tip, n.ip.proto, n.body.sha, n.body.tha)) in s)
    && (n.body.Ipv4Body? || n.body.Ipv6Body? ==> n.ip.frag != FRAG_LATER ==>
          && (n.ip.proto == TCP ==> Tcp(n.body.tp) in s)
          && (n.ip.proto == UDP ==> Udp(n.body.tp) in s)
          && (n.body.Ipv4Body? && n.ip.proto == ICMP ==> n.body.tp.src < 0x100 && n.body.tp.dst < 0x100 && Icmp(IcmpAttr(n.body.tp.src, n.body.tp.dst)) in s)
          && (n.body.Ipv6Body? && n.ip.proto == ICMPV6 ==> n.body.tp.src < 0x100 && n.body.tp.dst < 0x100 && Icmpv6(IcmpAttr(n.body.tp.src, n.body.tp.dst)) in s)
          && (n.body.Ipv6Body? && n.ip.proto == ICMPV6 && n.body.tp.src in {ND_SOLICITATION, ND_ADVERTISEMENT} ==> Nd(n.body.nd) in s))
  }

  /** The list has all attributes that the key calls for. */
  predicate Tells(s: seq<Attr>, k: Key) {
    && (k.priority != 0 ==> Priority(k.priority) in s)
    && (k.tunId != 0 ==> TunId(k.tunId) in s)
    && (k.inPort != DP_MAX_PORTS ==> InPort(k.inPort) in s)
    && Ethernet(EthernetAttr(k.ethSrc, k.ethDst)) in s
    && if Tagged(k) then
         && EtherType(ETH_P_8021Q) in s && Vlan(k.tci) in s
         && exists i | 0 <= i < |s| :: s[i].Encap? && (k.tci != 0 ==> TellsNet(s[i].attrs, k.net))
       else TellsNet(s, k.net)
  }

  lemma NetSays(s: seq<Attr>, n: Net)
    requires ValidNet(n) && Parse(s) == Ok(NetAttrs(n))
    ensures AllSay(s, n)
  {
    forall i | 0 <= i < |s| ensures Says(s[i], n) {
      ParseRecords(s, s[i]);
    }
  }

  lemma NetTells(s: seq<Attr>, m: Present, n: Net)
    requires ValidNet(n) && Parse(s) == Ok(m) && WithoutMetadata(m) == NetAttrs(n)
    ensures TellsNet(s, n)
  {
    ParseRecords(s, EtherType(n.ethType));
    if n.ethType == ETH_P_IP {
      ParseRecords(s, IPv4(Ipv4Attr(n.body.src, n.body.dst, n.ip)));
    } else if n.ethType == ETH_P_IPV6 {
      ParseRecords(s, IPv6(Ipv6Attr(n.body.src6, n.body.dst6, n.body.flowLabel, n.ip)));
      ParseRecords(s, Nd(n.body.nd));
    } else if n.ethType == ETH_P_ARP {
      ParseRecords(s, Arp(ArpAttr(n.body.sip, n.body.tip, n.ip.proto, n.body.sha, n.body.tha)));
    }
    if n.body.Ipv4Body? || n.body.Ipv6Body? {
      ParseRecords(s, Tcp(n.body.tp));
      ParseRecords(s, Udp(n.body.tp));
      if n.body.tp.src < 0x100 && n.body.tp.dst < 0x100 {
        ParseRecords(s, Icmp(IcmpAttr(n.body.tp.src, n.body.tp.dst)));
        ParseRecords(s, Icmpv6(IcmpAttr(n.body.tp.src, n.body.tp.dst)));
      }
    }
  }

  /** In a list that stands for a key every attribute is true of the key ... */
  lemma DenotedIsTrue(s: seq<Attr>, k: Key)
    requires Denotes(s, k)
    ensures AllTrue(s, k)
  {
    forall i | 0 <= i < |s| ensures SaysOfKey(s[i], k) {
      ParseRecords(s, s[i]);
      if s[i].Encap? && k.tci != 0 {
        NetSays(s[i].attrs, k.net);
      }
    }
  }

  /** ... and nothing the key calls for is missing. */
  lemma DenotedIsTold(s: seq<Attr>, k: Key)
    requires Denotes(s, k)
    ensures Tells(s, k)
  {
    var m := Parse(s).value;
    ParseRecords(s, Priority(k.priority));
    ParseRecords(s, TunId(k.tunId));
    ParseRecords(s, InPort(k.inPort));
    ParseRecords(s, Ethernet(EthernetAttr(k.ethSrc, k.ethDst)));
    if Tagged(k) {
      ParseRecords(s, EtherType(ETH_P_8021Q));
      ParseRecords(s, Vlan(k.tci));
      ParseRecords(s, Encap(m.encap.value));
      var i :| 0 <= i < |s| && s[i] == Encap(m.encap.value);
      if k.tci != 0 {
        NetTells(s[i].attrs, NetAttrs(k.net), k.net);
      }
    } else {
      NetTells(s, m, k.net);
    }
  }

  // ---- Decoding ----

  /** parse_flow_nlattrs */
  method ParseNlattrs(s: seq<Attr>) returns (r: Result<Present>)
    ensures r == Parse(s)
  {
    var m := NOTHING;
    for i := 0 to |s|
      invariant Parse(s[..i]) == Ok(m)
    {
      assert s[..i + 1][..i] == s[..i];
      var next := Put(m, s[i]);
      if next.Error? {
        ParseStaysError(s, i + 1);
        return Error;
      }
      m := next.value;
    }
    assert s[..|s|] == s;
    return Ok(m);
  }

  lemma {:induction false} ParseStaysError(s: seq<Attr>, i: nat)
    requires i <= |s| && Parse(s[..i]).Error?
    ensures Parse(s).Error?
    decreases |s| - i
  {
    if i == |s| {
      assert s[..i] == s;
    } else {
      assert s[..i + 1][..i] == s[..i];
      ParseStaysError(s, i + 1);
    }
  }

  /** What ipv4_flow_from_nlattrs and ipv6_flow_from_nlattrs demand of `m` for a datagram
      that is not a later fragment: the transport fields, if the protocol has any, and `m`
      without the attribute they came from. */
  function TakeTp(m: Present, v6: bool, proto: U8): Result<(Option<Tp>, Present)> {
    if proto == TCP then
      if m.tcp.None? then Error else Ok((m.tcp, m.(tcp := None)))
    else if proto == UDP then
      if m.udp.None? then Error else Ok((m.udp, m.(udp := None)))
    else if !v6 && proto == ICMP then
      if m.icmp.None? then Error else Ok((Some(Tp(m.icmp.value.kind, m.icmp.value.code)), m.(icmp := None)))
    else if v6 && proto == ICMPV6 then
      if m.icmpv6.None? then Error else Ok((Some(Tp(m.icmpv6.value.kind, m.icmpv6.value.code)), m.(icmpv6 := None)))
    else Ok((None, m))
  }

  /** `m` describes `r`, or nothing at all. */
  ghost predicate Decodes(m: Present, r: Result<(Net, nat)>) {
    match r
    case Ok((n, len)) => ValidNet(n) && m == NetAttrs(n) && len == KeyLen(n)
    case Error => forall n: Net | ValidNet(n) :: m != NetAttrs(n)
  }

  method Ipv4FromNlattrs(m: Present) returns (r: Result<(Net, nat)>)
    requires m.ethType == Some(ETH_P_IP)
    ensures Decodes(m, r)
  {
    if m.ipv4.None? || m.ipv4.value.ip.frag > 2 {
      return Error;
    }
    var a := m.ipv4.value;
    var left, keyLen, tp := m.(ethType := None, ipv4 := None), 44, NO_TP;
    if a.ip.frag != FRAG_LATER {
      var t := TakeTp(left, false, a.ip.proto);
      if t.Error? {
        return Error;
      }
      if t.value.0.Some? {
        keyLen, tp := 48, t.value.0.value;
      }
      left := t.value.1;
    }
    if left != NOTHING {
      return Error;
    }
    return Ok((Net(ETH_P_IP, a.ip, Ipv4Body(a.src, a.dst, tp)), keyLen));
  }

  method Ipv6FromNlattrs(m: Present) returns (r: Result<(Net, nat)>)
    requires m.ethType == Some(ETH_P_IPV6)
    ensures Decodes(m, r)
  {
    if m.ipv6.None? || m.ipv6.value.ip.frag > 2 {
      return Error;
    }
    var a := m.ipv6.value;
    var left, keyLen, tp, nd := m.(ethType := None, ipv6 := None), 72, NO_TP, NO_ND;
    if a.ip.frag != FRAG_LATER {
      var t := TakeTp(left, true, a.ip.proto);
      if t.Error? {
        return Error;
      }
      if t.value.0.Some? {
        keyLen, tp := 76, t.value.0.value;
      }
      left := t.value.1;
      if a.ip.proto == ICMPV6 && (tp.src == ND_SOLICITATION || tp.src == ND_ADVERTISEMENT) {
        if left.nd.None? {
          return Error;
        }
        keyLen, nd, left := 104, left.nd.value, left.(nd := None);
      }
    }
    if left != NOTHING {
      return Error;
    }
    return Ok((Net(ETH_P_IPV6, a.ip, Ipv6Body(a.src, a.dst, a.flowLabel, tp, nd)), keyLen));
  }

  /** The part of ovs_flow_from_nlattrs that follows the VLAN header. */
  method NetFromNlattrs(m: Present) returns (r: Result<(Net, nat)>)
    ensures Decodes(m, r)
  {
    var t := ETH_P_802_2;
    if m.ethType.Some? {
      t := m.ethType.value;
      if t < ETH_P_MIN {
        return Error;
      }
    }
    if t == ETH_P_IP {
      r := Ipv4FromNlattrs(m);
    } else if t == ETH_P_IPV6 {
      r := Ipv6FromNlattrs(m);
    } else if t == ETH_P_ARP {
      if m.arp.None? || m.arp.value.op / 0x100 != 0 || m.(ethType := None, arp := None) != NOTHING {
        return Error;
      }
      var a := m.arp.value;
      return Ok((Net(t, NO_IP.(proto := a.op), ArpBody(a.sip, a.tip, a.sha, a.tha)), 56));
    } else if m.(ethType := None) != NOTHING {
      return Error;
    } else {
      return Ok((Net(t, NO_IP, Blank), 32));
    }
  }

  /** ovs_flow_from_nlattrs: accepts exactly the lists that stand for a key, and returns that
      key and its length.  Every attribute of an accepted list, nested ones included, is true
      of the key, and the list has all that the key calls for. */
  method FromNlattrs(s: seq<Attr>) returns (r: Result<(Key, nat)>)
    ensures r.Ok? ==> Denotes(s, r.value.0) && r.value.1 == KeyLen(r.value.0.net)
    ensures r.Ok? ==> AllTrue(s, r.value.0) && Tells(s, r.value.0)
    ensures r.Error? ==> forall k: Key :: !Denotes(s, k)
  {
    r := Decode(s);
    if r.Ok? {
      DenotedIsTrue(s, r.value.0);
      DenotedIsTold(s, r.value.0);
    }
  }

  method Decode(s: seq<Attr>) returns (r: Result<(Key, nat)>)
    ensures r.Ok? ==> Denotes(s, r.value.0) && r.value.1 == KeyLen(r.value.0.net)
    ensures r.Error? ==> forall k: Key :: !Denotes(s, k)
  {
    var parsed := ParseNlattrs(s);
    if parsed.Error? {
      return Error;
    }
    var m := parsed.value;
    var priority: U32, tunId: U64, inPort: U16 := 0, 0, DP_MAX_PORTS;
    if m.priority.Some? {
      priority := m.priority.value;
    }
    if m.inPort.Some? {
      if m.inPort.value >= DP_MAX_PORTS {
        return Error;
      }
      inPort := m.inPort.value;
    }
    if m.tunId.Some? {
      tunId := m.tunId.value;
    }
    if m.ethernet.None? {
      return Error;
    }
    var eth, left, tci := m.ethernet.value, WithoutMetadata(m), 0;
    if left.ethType == Some(ETH_P_8021Q) {
      if left.vlan.None? || left.encap.None? || left.(ethType := None, vlan := None, encap := None) != NOTHING {
        return Error;
      }
      tci := left.vlan.value;
      if TagPresent(tci) {
        var nested := ParseNlattrs(left.encap.value);
        if nested.Error? {
          return Error;
        }
        left := nested.value;
      } else if tci == 0 {
        if left.encap.value != [] {
          return Error;
        }
        return Ok((Key(tunId, priority, inPort, eth.src, eth.dst, 0, Net(ETH_P_8021Q, NO_IP, Blank)), 32));
      } else {
        return Error;
      }
    }
    var net := NetFromNlattrs(left);
    if net.Error? {
      return Error;
    }
    return Ok((Key(tunId, priority, inPort, eth.src, eth.dst, tci, net.value.0), net.value.1));
  }

  // ---- Encoding ----

  lemma ParsePush(s: seq<Attr>, a: Attr)
    requires Parse(s).Ok?
    ensures Parse(s + [a]) == Put(Parse(s).value, a)
  {
    assert (s + [a])[..|s|] == s;
  }

  /** The transport attributes ovs_flow_to_nlattrs adds to `s`. */
  method TpToNlattrs(n: Net, s: seq<Attr>) returns (s': seq<Attr>)
    requires ValidNet(n) && Parse(s) == Ok(LowerAttrs(n))
    ensures Parse(s') == Ok(NetAttrs(n))
  {
    s' := s;
    if (n.ethType == ETH_P_IP || n.ethType == ETH_P_IPV6) && n.ip.frag != FRAG_LATER {
      var tp := n.body.tp;
      if n.ip.proto == TCP {
        ParsePush(s', Tcp(tp));
        s' := s' + [Tcp(tp)];
      } else if n.ip.proto == UDP {
        ParsePush(s', Udp(tp));
        s' := s' + [Udp(tp)];
      } else if n.ethType == ETH_P_IP && n.ip.proto == ICMP {
        var icmp := IcmpAttr(tp.src % 0x100, tp.dst % 0x100);
        ParsePush(s', Icmp(icmp));
        s' := s' + [Icmp(icmp)];
      } else if n.ethType == ETH_P_IPV6 && n.ip.proto == ICMPV6 {
        var icmp := IcmpAttr(tp.src % 0x100, tp.dst % 0x100);
        ParsePush(s', Icmpv6(icmp));
        s' := s' + [Icmpv6(icmp)];
        if icmp.kind == ND_SOLICITATION || icmp.kind == ND_ADVERTISEMENT {
          ParsePush(s', Nd(n.body.nd));
          s' := s' + [Nd(n.body.nd)];
        }
      }
    }
  }

  /** The attributes of `n` below the transport layer. */
  function LowerAttrs(n: Net): Present
    requires ValidNet(n)
  {
    NetAttrs(n).(tcp := None, udp := None, icmp := None, icmpv6 := None, nd := None)
  }

  /** The attribute with the addresses of the network layer, if it has one. */
  method AddressAttr(n: Net) returns (a: Option<Attr>)
    requires ValidNet(n)
    ensures var m := NOTHING.(ethType := Some(n.ethType));
            n.ethType != ETH_P_802_2 ==> (if a.Some? then Put(m, a.value) else Ok(m)) == Ok(LowerAttrs(n))
  {
    if n.ethType == ETH_P_IP {
      return Some(IPv4(Ipv4Attr(n.body.src, n.body.dst, n.ip)));
    } else if n.ethType == ETH_P_IPV6 {
      return Some(IPv6(Ipv6Attr(n.body.src6, n.body.dst6, n.body.flowLabel, n.ip)));
    } else if n.ethType == ETH_P_ARP {
      return Some(Arp(ArpAttr(n.body.sip, n.body.tip, n.ip.proto, n.body.sha, n.body.tha)));
    }
    return None;
  }

  /** The part of ovs_flow_to_nlattrs between the VLAN header and its end. */
  method NetToNlattrs(n: Net) returns (s: seq<Attr>)
    requires ValidNet(n)
    ensures Parse(s) == Ok(NetAttrs(n))
  {
    s := [];
    if n.ethType == ETH_P_802_2 {
      return;
    }
    ParsePush(s, EtherType(n.ethType));
    s := s + [EtherType(n.ethType)];
    var a := AddressAttr(n);
    if a.Some? {
      ParsePush(s, a.value);
      s := s + [a.value];
    }
    s := TpToNlattrs(n, s);
  }

  /** The metadata of `m` and the rest of `n`. */
  function Overlay(m: Present, n: Present): Present {
    n.(priority := m.priority, tunId := m.tunId, inPort := m.inPort, ethernet := m.ethernet)
  }

  predicate NoMetadata(m: Present) {
    m == WithoutMetadata(m)
  }

  /** An attribute that is no metadata can be recorded on top of metadata or without. */
  lemma PutOverlay(m: Present, n: Present, a: Attr)
    requires Put(n, a).Ok? && NoMetadata(Put(n, a).value)
    ensures NoMetadata(n) && Put(Overlay(m, n), a) == Ok(Overlay(m, Put(n, a).value))
  {
  }

  /** Appending `t` to a list of metadata. */
  lemma {:induction false} ParseOverlay(s: seq<Attr>, t: seq<Attr>, m: Present, n: Present)
    requires Parse(t) == Ok(n) && NoMetadata(n)
    requires Parse(s) == Ok(m) && WithoutMetadata(m) == NOTHING
    ensures Parse(s + t) == Ok(Overlay(m, n))
  {
    if t == [] {
      assert s + t == s;
    } else {
      var init, a := t[..|t| - 1], t[|t| - 1];
      var n' := Parse(init).value;
      PutOverlay(m, n', a);
      ParseOverlay(s, init, m, n');
      assert s + t == (s + init) + [a];
      ParsePush(s + init, a);
    }
  }

  /** The leading attributes: nonzero metadata and the Ethernet addresses. */
  method MetadataToNlattrs(k: Key) returns (s: seq<Attr>)
    ensures Parse(s) == Ok(NOTHING.(
              priority := if k.priority == 0 then None else Some(k.priority),
              tunId := if k.tunId == 0 then None else Some(k.tunId),
              inPort := if k.inPort == DP_MAX_PORTS then None else Some(k.inPort),
              ethernet := Some(EthernetAttr(k.ethSrc, k.ethDst))))
  {
    s := [];
    if k.priority != 0 {
      ParsePush(s, Priority(k.priority));
      s := s + [Priority(k.priority)];
    }
    if k.tunId != 0 {
      ParsePush(s, TunId(k.tunId));
      s := s + [TunId(k.tunId)];
    }
    if k.inPort != DP_MAX_PORTS {
      ParsePush(s, InPort(k.inPort));
      s := s + [InPort(k.inPort)];
    }
    var eth := Ethernet(EthernetAttr(k.ethSrc, k.ethDst));
    ParsePush(s, eth);
    s := s + [eth];
  }

  /** The VLAN header, if any, and what it encapsulates. */
  method VlanToNlattrs(tci: U16, n: Net) returns (s: seq<Attr>)
    requires ValidNet(n)
    ensures Parse(s).Ok? && NoMetadata(Parse(s).value) && Carries(Parse(s).value, tci, n)
  {
    if tci != 0 || n.ethType == ETH_P_8021Q {
      var nested := [];
      if tci != 0 {
        nested := NetToNlattrs(n);
      }
      s := [];
      ParsePush(s, EtherType(ETH_P_8021Q));
      s := s + [EtherType(ETH_P_8021Q)];
      ParsePush(s, Vlan(tci));
      s := s + [Vlan(tci)];
      ParsePush(s, Encap(nested));
      s := s + [Encap(nested)];
    } else {
      s := NetToNlattrs(n);
    }
  }

  /** ovs_flow_to_nlattrs: the list stands for the key, says only what is true of it, and
      leaves nothing out. */
  method ToNlattrs(k: Key) returns (s: seq<Attr>)
    requires ValidKey(k)
    ensures Denotes(s, k) && AllTrue(s, k) && Tells(s, k)
  {
    s := MetadataToNlattrs(k);
    var rest := VlanToNlattrs(k.tci, k.net);
    ParseOverlay(s, rest, Parse(s).value, Parse(rest).value);
    s := s + rest;
    DenotedIsTrue(s, k);
    DenotedIsTold(s, k);
  }

  // ---- Round trips ----

  /** Decoding an encoded key gives the key and its length back. */
  method EncodeDecode(k: Key) returns (r: Result<(Key, nat)>)
    requires ValidKey(k)
    ensures r == Ok((k, KeyLen(k.net)))
  {
    var s := ToNlattrs(k);
    r := FromNlattrs(s);
    assert r.Ok?;
    DenotesOne(s, k, r.value.0);
  }

  /** Every key the decoder accepts survives being encoded and decoded again. */
  method DecodeEncodeDecode(s: seq<Attr>) returns (first: Result<(Key, nat)>, again: Result<(Key, nat)>)
    ensures first.Ok? ==> again == first
    ensures first.Error? <==> forall k: Key :: !Denotes(s, k)
  {
    first := FromNlattrs(s);
    again := Error;
    if first.Ok? {
      again := EncodeDecode(first.value.0);
    }
  }
}

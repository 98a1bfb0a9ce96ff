/** The tunnel port table of `datapath/tunnel.c`: a hash table of ports and six counters that
    let a lookup skip keys no port can have. */
module Tunnel {
  import opened Wrappers

  const PORT_TABLE_SIZE := 1024

  /** struct port_lookup_key; `exact` tells TNL_T_KEY_EXACT from TNL_T_KEY_MATCH. */
  datatype PortKey = PortKey(inKey: nat, net: nat, saddr: nat, daddr: nat, proto: nat, exact: bool)

  /** The part of struct tnl_mutable_config that the table looks at. */
  datatype Config = Config(key: PortKey, inKeyMatch: bool)

  datatype Pool = KeyLocalRemote | KeyRemote | KeyMulticast | LocalRemote | Remote | MulticastPool

  /** The six port counters. */
  datatype Counters = Counters(keyLocalRemote: nat, keyRemote: nat, keyMulticast: nat, localRemote: nat, remote: nat, multicast: nat) {
    function At(pool: Pool): nat {
      match pool
      case KeyLocalRemote => keyLocalRemote
      case KeyRemote => keyRemote
      case KeyMulticast => keyMulticast
      case LocalRemote => localRemote
      case Remote => remote
      case MulticastPool => multicast
    }

    function With(pool: Pool, n: nat): Counters {
      match pool
      case KeyLocalRemote => this.(keyLocalRemote := n)
      case KeyRemote => this.(keyRemote := n)
      case KeyMulticast => this.(keyMulticast := n)
      case LocalRemote => this.(localRemote := n)
      case Remote => this.(remote := n)
      case MulticastPool => this.(multicast := n)
    }
  }

  const ZERO := Counters(0, 0, 0, 0, 0, 0)

  predicate Multicast(addr: nat) {
    0xe000_0000 <= addr < 0xf000_0000
  }

  /** find_port_pool */
  function PoolOf(c: Config): Pool {
    if c.inKeyMatch then
      if c.key.saddr != 0 then LocalRemote else if Multicast(c.key.daddr) then MulticastPool else Remote
    else
      if c.key.saddr != 0 then KeyLocalRemote else if Multicast(c.key.daddr) then KeyMulticast else KeyRemote
  }

  /** What tnl_set_config makes of a request always looks like this. */
  predicate ConfigOk(c: Config) {
    && c.inKeyMatch == !c.key.exact && (c.inKeyMatch ==> c.key.inKey == 0)
    && (Multicast(c.key.daddr) ==> c.key.saddr == 0)
  }

  // ---- The ports as a set ----------------------------------------------------------------

  type Ports = map<nat, Config>

  predicate Unlike(ports: Ports, p: nat, q: nat)
    requires p in ports && q in ports
  {
    p == q || ports[p].key != ports[q].key
  }

  /** All configurations are well formed and no two ports share a key. */
  ghost predicate PortsOk(ports: Ports) {
    && (forall p {:trigger ports[p]} | p in ports :: ConfigOk(ports[p]))
    && (forall p, q {:trigger Unlike(ports, p, q)} | p in ports && q in ports :: Unlike(ports, p, q))
  }

  ghost function Members(ports: Ports, pool: Pool): set<nat> {
    set p | p in ports && PoolOf(ports[p]) == pool
  }

  ghost predicate CountedAt(ports: Ports, counters: Counters, pool: Pool) {
    counters.At(pool) == |Members(ports, pool)|
  }

  /** Every counter is the number of ports of its class. */
  ghost predicate Counted(ports: Ports, counters: Counters) {
    forall pool: Pool :: CountedAt(ports, counters, pool)
  }

  ghost predicate Has(ports: Ports, key: PortKey) {
    exists p :: p in ports && ports[p].key == key
  }

  /** The port with a given key. */
  ghost function Find(ports: Ports, key: PortKey): (r: Option<nat>)
    ensures r.Some? <==> Has(ports, key)
    ensures r.Some? ==> r.value in ports && ports[r.value].key == key
  {
    if Has(ports, key) then
      var p :| p in ports && ports[p].key == key;
      Some(p)
    else None
  }

  lemma FindsOnly(ports: Ports, key: PortKey, p: nat)
    requires PortsOk(ports) && p in ports && ports[p].key == key
    ensures Find(ports, key) == Some(p)
  {
    assert Has(ports, key);
    assert Unlike(ports, p, Find(ports, key).value);
  }

  lemma Inserted(ports: Ports, p: nat, c: Config, pool: Pool)
    requires p !in ports
    ensures |Members(ports[p := c], pool)| == |Members(ports, pool)| + if PoolOf(c) == pool then 1 else 0
  {
    assert Members(ports[p := c], pool) == Members(ports, pool) + if PoolOf(c) == pool then {p} else {};
  }

  lemma PutAgain(ports: Ports, p: nat, c: Config)
    ensures (ports - {p})[p := c] == ports[p := c]
  {
  }

  lemma Deleted(ports: Ports, p: nat, pool: Pool)
    requires p in ports
    ensures |Members(ports, pool)| == |Members(ports - {p}, pool)| + if PoolOf(ports[p]) == pool then 1 else 0
  {
    assert (ports - {p})[p := ports[p]] == ports;
    Inserted(ports - {p}, p, ports[p], pool);
  }

  lemma Replaced(ports: Ports, p: nat, c: Config, pool: Pool)
    requires p in ports
    ensures |Members(ports[p := c], pool)| + (if PoolOf(ports[p]) == pool then 1 else 0)
         == |Members(ports, pool)| + (if PoolOf(c) == pool then 1 else 0)
  {
    Deleted(ports, p, pool);
    Inserted(ports - {p}, p, c, pool);
    PutAgain(ports, p, c);
  }

  // ---- The search ------------------------------------------------------------------------

  function OrElse(a: Option<nat>, b: Option<nat>): Option<nat> {
    if a.Some? then a else b
  }

  /** A lookup that is carried out only when `gate` is open. */
  ghost function Try(gate: bool, ports: Ports, key: PortKey): Option<nat> {
    if gate then Find(ports, key) else None
  }

  /** The order in which ovs_tnl_find_port tries keys, each behind a gate of its own: first
      those that name the remote end ... */
  ghost function SearchRemote(gates: Pool -> bool, ports: Ports, net: nat, saddr: nat, daddr: nat, inKey: nat, proto: nat): Option<nat> {
    var mc := Multicast(saddr);
    OrElse(Try(!mc && gates(KeyLocalRemote), ports, PortKey(inKey, net, saddr, daddr, proto, true)),
    OrElse(Try(gates(KeyRemote), ports, PortKey(inKey, net, 0, daddr, proto, true)),
    OrElse(Try(!mc && gates(LocalRemote), ports, PortKey(0, net, saddr, daddr, proto, false)),
           Try(gates(Remote), ports, PortKey(0, net, 0, daddr, proto, false)))))
  }

  /** ... then, for a multicast local address, those that name the group. */
  ghost function SearchGroup(gates: Pool -> bool, ports: Ports, net: nat, saddr: nat, inKey: nat, proto: nat): Option<nat> {
    var mc := Multicast(saddr);
    OrElse(Try(mc && gates(KeyMulticast), ports, PortKey(inKey, net, 0, saddr, proto, true)),
           Try(mc && gates(MulticastPool), ports, PortKey(0, net, 0, saddr, proto, false)))
  }

  ghost function Search(gates: Pool -> bool, ports: Ports, net: nat, saddr: nat, daddr: nat, inKey: nat, proto: nat): Option<nat> {
    OrElse(SearchRemote(gates, ports, net, saddr, daddr, inKey, proto), SearchGroup(gates, ports, net, saddr, inKey, proto))
  }

  function Gates(counters: Counters): Pool -> bool {
    pool => counters.At(pool) > 0
  }

  ghost function Gated(counters: Counters, ports: Ports, net: nat, saddr: nat, daddr: nat, inKey: nat, proto: nat): Option<nat> {
    Search(Gates(counters), ports, net, saddr, daddr, inKey, proto)
  }

  /** The search with every counter test removed. */
  ghost function Ungated(ports: Ports, net: nat, saddr: nat, daddr: nat, inKey: nat, proto: nat): Option<nat> {
    Search(_ => true, ports, net, saddr, daddr, inKey, proto)
  }

  /** The counter of a key's own class never hides a port with that key. */
  lemma GateOpen(counters: Counters, ports: Ports, key: PortKey, pool: Pool)
    requires PortsOk(ports) && Counted(ports, counters) && pool == PoolOf(Config(key, !key.exact))
    ensures Try(counters.At(pool) > 0, ports, key) == Find(ports, key)
  {
    var r := Find(ports, key);
    if r.Some? {
      assert ConfigOk(ports[r.value]) && ports[r.value] == Config(key, !key.exact);
      assert r.value in Members(ports, pool);
      assert CountedAt(ports, counters, pool);
    }
  }

  /** With right counters the tests change nothing, as long as the remote end is no multicast
      address. */
  lemma GatesTransparent(counters: Counters, ports: Ports, net: nat, saddr: nat, daddr: nat, inKey: nat, proto: nat)
    requires PortsOk(ports) && Counted(ports, counters) && !Multicast(daddr)
    ensures Gated(counters, ports, net, saddr, daddr, inKey, proto) == Ungated(ports, net, saddr, daddr, inKey, proto)
  {
    var k1, k2 := PortKey(inKey, net, saddr, daddr, proto, true), PortKey(inKey, net, 0, daddr, proto, true);
    var k3, k4 := PortKey(0, net, saddr, daddr, proto, false), PortKey(0, net, 0, daddr, proto, false);
    GateOpen(counters, ports, k2, KeyRemote);
    GateOpen(counters, ports, k4, Remote);
    if Multicast(saddr) {
      GateOpen(counters, ports, PortKey(inKey, net, 0, saddr, proto, true), KeyMulticast);
      GateOpen(counters, ports, PortKey(0, net, 0, saddr, proto, false), MulticastPool);
    } else if saddr != 0 {
      GateOpen(counters, ports, k1, KeyLocalRemote);
      GateOpen(counters, ports, k3, LocalRemote);
    } else {
      assert k1 == k2 && k3 == k4;
    }
  }

  // ---- Which port a packet belongs to, without the search --------------------------------

  /** What the receiver knows of a packet: the local and the remote address, and the key. */
  datatype Packet = Packet(net: nat, saddr: nat, daddr: nat, inKey: nat, proto: nat)

  /** The tunnel ends at the packet's remote end, and at its local address or at any. */
  predicate ByRemote(c: Config, pkt: Packet) {
    c.key.daddr == pkt.daddr && (c.key.saddr == 0 || (c.key.saddr == pkt.saddr && !Multicast(pkt.saddr)))
  }

  /** The tunnel is for the multicast group the packet came to. */
  predicate ByGroup(c: Config, pkt: Packet) {
    Multicast(pkt.saddr) && c.key.saddr == 0 && c.key.daddr == pkt.saddr
  }

  predicate Accepts(c: Config, pkt: Packet) {
    && c.key.net == pkt.net && c.key.proto == pkt.proto
    && (c.key.exact ==> c.key.inKey == pkt.inKey)
    && (ByRemote(c, pkt) || ByGroup(c, pkt))
  }

  /** The remote end counts over the group, then an exact key over any, then a named local
      address over any. */
  function Rank(c: Config, pkt: Packet): nat {
    (if ByRemote(c, pkt) then 4 else 0) + (if c.key.exact then 2 else 0) + (if c.key.saddr != 0 then 1 else 0)
  }

  /** `r` is the one port of highest rank among those that accept the packet, none exactly
      when no port accepts it. */
  ghost predicate Best(ports: Ports, pkt: Packet, r: Option<nat>) {
    match r
    case None => forall p | p in ports :: !Accepts(ports[p], pkt)
    case Some(p) => p in ports && Accepts(ports[p], pkt) && forall q | q in ports && q != p && Accepts(ports[q], pkt) :: Rank(ports[q], pkt) < Rank(ports[p], pkt)
  }

  /** The key that an accepting port of a given rank has. */
  function KeyOfRank(pkt: Packet, rank: nat): PortKey {
    var exact := rank % 4 >= 2;
    PortKey(if exact then pkt.inKey else 0, pkt.net, if rank % 2 == 1 then pkt.saddr else 0, if rank >= 4 then pkt.daddr else pkt.saddr, pkt.proto, exact)
  }

  lemma RankFixesKey(c: Config, pkt: Packet)
    requires ConfigOk(c) && Accepts(c, pkt)
    ensures c.key == KeyOfRank(pkt, Rank(c, pkt)) && Rank(c, pkt) in {0, 2, 4, 5, 6, 7}
    ensures Rank(c, pkt) < 4 ==> Multicast(pkt.saddr)
    ensures Rank(c, pkt) % 2 == 1 ==> !Multicast(pkt.saddr) && pkt.saddr != 0
  {
  }

  /** An accepting port is what the lookup for its rank finds. */
  lemma FoundByRank(ports: Ports, pkt: Packet, q: nat)
    requires PortsOk(ports) && q in ports && Accepts(ports[q], pkt)
    ensures Find(ports, KeyOfRank(pkt, Rank(ports[q], pkt))) == Some(q)
  {
    RankFixesKey(ports[q], pkt);
    FindsOnly(ports, ports[q].key, q);
  }

  /** The search without the counter tests finds the best port. */
  lemma UngatedIsBest(ports: Ports, pkt: Packet)
    requires PortsOk(ports)
    ensures Best(ports, pkt, Ungated(ports, pkt.net, pkt.saddr, pkt.daddr, pkt.inKey, pkt.proto))
  {
    var r := Ungated(ports, pkt.net, pkt.saddr, pkt.daddr, pkt.inKey, pkt.proto);
    forall q | q in ports && Accepts(ports[q], pkt)
      ensures r.Some? && r.value in ports && Accepts(ports[r.value], pkt)
      ensures r == Some(q) || Rank(ports[q], pkt) < Rank(ports[r.value], pkt)
    {
      SearchBeats(ports, pkt, q);
    }
    if r.Some? {
      SearchAccepted(ports, pkt);
    }
  }

  lemma SearchAccepted(ports: Ports, pkt: Packet)
    requires PortsOk(ports) && Ungated(ports, pkt.net, pkt.saddr, pkt.daddr, pkt.inKey, pkt.proto).Some?
    ensures var p := Ungated(ports, pkt.net, pkt.saddr, pkt.daddr, pkt.inKey, pkt.proto).value;
            p in ports && Accepts(ports[p], pkt)
  {
  }

  lemma SearchBeats(ports: Ports, pkt: Packet, q: nat)
    requires PortsOk(ports) && q in ports && Accepts(ports[q], pkt)
    ensures var r := Ungated(ports, pkt.net, pkt.saddr, pkt.daddr, pkt.inKey, pkt.proto);
            && r.Some? && r.value in ports && Accepts(ports[r.value], pkt)
            && (r == Some(q) || Rank(ports[q], pkt) < Rank(ports[r.value], pkt))
  {
    RankFixesKey(ports[q], pkt);
    FoundByRank(ports, pkt, q);
  }

  /** For a multicast remote address the counter tests do matter: some table has a port that
      only the search without them finds. */
  lemma GatesHideMulticastRemote(daddr: nat) returns (counters: Counters, ports: Ports, saddr: nat)
    requires Multicast(daddr)
    ensures PortsOk(ports) && Counted(ports, counters)
    ensures Gated(counters, ports, 0, saddr, daddr, 0, 0) != Ungated(ports, 0, saddr, daddr, 0, 0)
  {
    var key := PortKey(0, 0, 0, daddr, 0, true);
    var c := Config(key, false);
    ports, saddr := map[0 := c], 1;
    counters := ZERO.(keyMulticast := 1);
    forall pool: Pool ensures CountedAt(ports, counters, pool) {
      assert map[][0 := c] == ports;
      assert Members(map[], pool) == {};
      Inserted(map[], 0, c, pool);
    }
    FindsOnly(ports, key, 0);
  }

  // ---- The hash table --------------------------------------------------------------------

  function BucketOf(hash: PortKey -> nat, key: PortKey): nat {
    hash(key) % PORT_TABLE_SIZE
  }

  /** Bucket `b` holds only ports whose key hashes there, each once. */
  ghost predicate BucketOk(hash: PortKey -> nat, ports: Ports, b: nat, bucket: seq<nat>) {
    && (forall i | 0 <= i < |bucket| :: bucket[i] in ports && BucketOf(hash, ports[bucket[i]].key) == b)
    && (forall i, j | 0 <= i < j < |bucket| :: bucket[i] != bucket[j])
  }

  ghost predicate StoredAt(hash: PortKey -> nat, ports: Ports, buckets: seq<seq<nat>>, p: nat)
    requires |buckets| == PORT_TABLE_SIZE && p in ports
  {
    p in buckets[BucketOf(hash, ports[p].key)]
  }

  /** The buckets hold exactly the ports. */
  ghost predicate Hashed(hash: PortKey -> nat, ports: Ports, buckets: seq<seq<nat>>) {
    && |buckets| == PORT_TABLE_SIZE
    && (forall b: nat | b < PORT_TABLE_SIZE :: BucketOk(hash, ports, b, buckets[b]))
    && (forall p | p in ports :: StoredAt(hash, ports, buckets, p))
  }

  function Without(s: seq<nat>, p: nat): seq<nat> {
    if s == [] then [] else if s[0] == p then s[1..] else [s[0]] + Without(s[1..], p)
  }

  lemma {:induction false} WithoutHas(s: seq<nat>, p: nat, x: nat)
    requires forall i, j | 0 <= i < j < |s| :: s[i] != s[j]
    ensures x in Without(s, p) <==> x in s && x != p
  {
    if s != [] {
      assert forall i | 0 <= i < |s[1..]| :: s[1..][i] == s[i + 1];
      if s[0] != p {
        WithoutHas(s[1..], p, x);
      }
    }
  }

  lemma {:induction false} WithoutOnce(s: seq<nat>, p: nat)
    requires forall i, j | 0 <= i < j < |s| :: s[i] != s[j]
    ensures forall i, j | 0 <= i < j < |Without(s, p)| :: Without(s, p)[i] != Without(s, p)[j]
  {
    if s != [] && s[0] != p {
      WithoutOnce(s[1..], p);
      WithoutHas(s[1..], p, s[0]);
    }
  }

  lemma BucketRemove(hash: PortKey -> nat, ports: Ports, b: nat, bucket: seq<nat>, p: nat)
    requires BucketOk(hash, ports, b, bucket)
    ensures BucketOk(hash, ports - {p}, b, Without(bucket, p))
  {
    var n := Without(bucket, p);
    WithoutOnce(bucket, p);
    forall i | 0 <= i < |n| ensures n[i] in ports - {p} && BucketOf(hash, ports[n[i]].key) == b {
      WithoutHas(bucket, p, n[i]);
    }
  }

  lemma HashedRemove(hash: PortKey -> nat, ports: Ports, buckets: seq<seq<nat>>, p: nat)
    requires Hashed(hash, ports, buckets) && p in ports
    ensures var b := BucketOf(hash, ports[p].key);
            Hashed(hash, ports - {p}, buckets[b := Without(buckets[b], p)])
  {
    var b := BucketOf(hash, ports[p].key);
    var n, m := buckets[b := Without(buckets[b], p)], ports - {p};
    forall c: nat | c < PORT_TABLE_SIZE ensures BucketOk(hash, m, c, n[c]) {
      assert BucketOk(hash, ports, c, buckets[c]);
      if c == b {
        BucketRemove(hash, ports, b, buckets[b], p);
      }
    }
    forall q | q in m ensures StoredAt(hash, m, n, q) {
      assert StoredAt(hash, ports, buckets, q);
      assert BucketOk(hash, ports, b, buckets[b]);
      WithoutHas(buckets[b], p, q);
    }
  }

  lemma HashedAdd(hash: PortKey -> nat, ports: Ports, buckets: seq<seq<nat>>, p: nat, c: Config)
    requires Hashed(hash, ports, buckets) && p !in ports
    ensures var b := BucketOf(hash, c.key);
            Hashed(hash, ports[p := c], buckets[b := [p] + buckets[b]])
  {
    var b := BucketOf(hash, c.key);
    var n := buckets[b := [p] + buckets[b]];
    forall d: nat | d < PORT_TABLE_SIZE ensures BucketOk(hash, ports[p := c], d, n[d]) {
      assert BucketOk(hash, ports, d, buckets[d]);
    }
    var m := ports[p := c];
    forall q | q in m ensures StoredAt(hash, m, n, q) {
      if q == p {
        assert n[b][0] == p;
      } else {
        assert StoredAt(hash, ports, buckets, q);
      }
    }
  }

  /** A configuration with the same bucket can simply replace the old one. */
  lemma HashedReplace(hash: PortKey -> nat, ports: Ports, buckets: seq<seq<nat>>, p: nat, c: Config)
    requires Hashed(hash, ports, buckets) && p in ports && BucketOf(hash, c.key) == BucketOf(hash, ports[p].key)
    ensures Hashed(hash, ports[p := c], buckets)
  {
    forall b: nat | b < PORT_TABLE_SIZE ensures BucketOk(hash, ports[p := c], b, buckets[b]) {
      assert BucketOk(hash, ports, b, buckets[b]);
    }
    var m := ports[p := c];
    forall q | q in m ensures StoredAt(hash, m, buckets, q) {
      assert StoredAt(hash, ports, buckets, q);
    }
  }

  /** A request from userspace.  `headerFits` and `routed` are what the tunnel protocol says
      about the header length and whether a route to a multicast group exists. */
  datatype Options = Options(hasFlags: bool, dst: Option<nat>, src: Option<nat>, inKey: Option<nat>, tos: nat, headerFits: bool, routed: bool)

  const INET_ECN_MASK := 3

  /** The table holds what it should, whatever the counters say. */
  ghost predicate Sound(hash: PortKey -> nat, ports: Ports, buckets: seq<seq<nat>>, count: nat) {
    PortsOk(ports) && Hashed(hash, ports, buckets) && count == |ports|
  }

  lemma CountedAdd(ports: Ports, counters: Counters, p: nat, c: Config)
    requires Counted(ports, counters) && p !in ports
    ensures Counted(ports[p := c], counters.With(PoolOf(c), counters.At(PoolOf(c)) + 1))
  {
    var m, n := ports[p := c], counters.With(PoolOf(c), counters.At(PoolOf(c)) + 1);
    forall pool: Pool ensures CountedAt(m, n, pool) {
      assert CountedAt(ports, counters, pool);
      Inserted(ports, p, c, pool);
    }
  }

  lemma CountedRemove(ports: Ports, counters: Counters, p: nat)
    requires Counted(ports, counters) && p in ports
    ensures counters.At(PoolOf(ports[p])) > 0
    ensures Counted(ports - {p}, counters.With(PoolOf(ports[p]), counters.At(PoolOf(ports[p])) - 1))
  {
    var pool, m := PoolOf(ports[p]), ports - {p};
    assert CountedAt(ports, counters, pool);
    Deleted(ports, p, pool);
    var n := counters.With(pool, counters.At(pool) - 1);
    forall q: Pool ensures CountedAt(m, n, q) {
      assert CountedAt(ports, counters, q);
      Deleted(ports, p, q);
    }
  }

  lemma PortsAdd(ports: Ports, p: nat, c: Config)
    requires PortsOk(ports) && p !in ports && ConfigOk(c) && !Has(ports, c.key)
    ensures PortsOk(ports[p := c]) && |ports[p := c]| == |ports| + 1
  {
    var m := ports[p := c];
    forall a, b | a in m && b in m ensures Unlike(m, a, b) {
      if a != p && b != p {
        assert Unlike(ports, a, b);
      }
    }
  }

  lemma PortsRemove(ports: Ports, p: nat)
    requires PortsOk(ports) && p in ports
    ensures PortsOk(ports - {p}) && |ports - {p}| == |ports| - 1
  {
    var m := ports - {p};
    forall a, b | a in m && b in m ensures Unlike(m, a, b) {
      assert Unlike(ports, a, b);
    }
    assert m[p := ports[p]] == ports;
  }

  lemma SoundAdd(hash: PortKey -> nat, ports: Ports, buckets: seq<seq<nat>>, count: nat, p: nat, c: Config)
    requires Sound(hash, ports, buckets, count) && p !in ports && ConfigOk(c) && !Has(ports, c.key)
    ensures var b := BucketOf(hash, c.key);
            Sound(hash, ports[p := c], buckets[b := [p] + buckets[b]], count + 1)
  {
    PortsAdd(ports, p, c);
    HashedAdd(hash, ports, buckets, p, c);
  }

  lemma SoundRemove(hash: PortKey -> nat, ports: Ports, buckets: seq<seq<nat>>, count: nat, p: nat)
    requires Sound(hash, ports, buckets, count) && p in ports
    ensures count > 0
    ensures var b := BucketOf(hash, ports[p].key);
            Sound(hash, ports - {p}, buckets[b := Without(buckets[b], p)], count - 1)
  {
    PortsRemove(ports, p);
    HashedRemove(hash, ports, buckets, p);
  }

  lemma SoundMove(hash: PortKey -> nat, ports: Ports, buckets: seq<seq<nat>>, count: nat, p: nat, c: Config)
    requires Sound(hash, ports, buckets, count) && p in ports && ConfigOk(c)
    requires !Has(ports - {p}, c.key)
    ensures var (b, n) := (BucketOf(hash, ports[p].key), BucketOf(hash, c.key));
            var rest := buckets[b := Without(buckets[b], p)];
            Sound(hash, ports[p := c], rest[n := [p] + rest[n]], count)
  {
    var b := BucketOf(hash, ports[p].key);
    var rest := buckets[b := Without(buckets[b], p)];
    PutAgain(ports, p, c);
    assert Sound(hash, ports - {p}, rest, count - 1) by {
      SoundRemove(hash, ports, buckets, count, p);
    }
    SoundAdd(hash, ports - {p}, rest, count - 1, p, c);
  }

  /** A new configuration under the same hash needs no move. */
  lemma SoundReplace(hash: PortKey -> nat, ports: Ports, buckets: seq<seq<nat>>, count: nat, p: nat, c: Config)
    requires Sound(hash, ports, buckets, count) && p in ports && ConfigOk(c)
    requires hash(c.key) == hash(ports[p].key) && !Has(ports - {p}, c.key)
    ensures Sound(hash, ports[p := c], buckets, count)
  {
    HashedReplace(hash, ports, buckets, p, c);
    PortsRemove(ports, p);
    PortsAdd(ports - {p}, p, c);
    PutAgain(ports, p, c);
  }

  /** One port less in one class and one more in another. */
  function Recounted(counters: Counters, from: Pool, to: Pool): Counters
    requires counters.At(from) > 0
  {
    var less := counters.With(from, counters.At(from) - 1);
    less.With(to, less.At(to) + 1)
  }

  lemma CountedMove(ports: Ports, counters: Counters, p: nat, c: Config)
    requires Counted(ports, counters) && p in ports
    ensures counters.At(PoolOf(ports[p])) > 0
    ensures Counted(ports[p := c], Recounted(counters, PoolOf(ports[p]), PoolOf(c)))
  {
    CountedRemove(ports, counters, p);
    CountedAdd(ports - {p}, counters.With(PoolOf(ports[p]), counters.At(PoolOf(ports[p])) - 1), p, c);
    PutAgain(ports, p, c);
  }

  /** Counters left alone stay right exactly when the class does not change. */
  lemma CountedReplace(ports: Ports, counters: Counters, p: nat, c: Config)
    requires Counted(ports, counters) && p in ports
    ensures Counted(ports[p := c], counters) <==> PoolOf(c) == PoolOf(ports[p])
  {
    var m := ports[p := c];
    forall pool: Pool ensures CountedAt(m, counters, pool) <==> ((PoolOf(ports[p]) == pool) == (PoolOf(c) == pool)) {
      assert CountedAt(ports, counters, pool);
      Replaced(ports, p, c, pool);
    }
    assert CountedAt(m, counters, PoolOf(c)) <==> PoolOf(ports[p]) == PoolOf(c);
  }

  class Table {
    const hash: PortKey -> nat
    var buckets: seq<seq<nat>>
    var ports: Ports
    var count: nat
    var counters: Counters

    constructor (hash: PortKey -> nat)
      ensures this.hash == hash && ports == map[] && Valid() && Counted(ports, counters)
    {
      this.hash, buckets, ports, count, counters := hash, seq(PORT_TABLE_SIZE, _ => []), map[], 0, ZERO;
      new;
      forall pool: Pool ensures CountedAt(ports, counters, pool) {
        assert Members(ports, pool) == {};
      }
    }

    ghost predicate Valid()
      reads `buckets, `ports, `count
    {
      Sound(hash, ports, buckets, count)
    }

    /** port_table_lookup */
    method Lookup(key: PortKey) returns (r: Option<nat>)
      requires Valid()
      ensures r == Find(ports, key)
    {
      var b := BucketOf(hash, key);
      var bucket := buckets[b];
      assert BucketOk(hash, ports, b, bucket);
      for i := 0 to |bucket|
        invariant forall j | 0 <= j < i :: ports[bucket[j]].key != key
      {
        if ports[bucket[i]].key == key {
          FindsOnly(ports, key, bucket[i]);
          return Some(bucket[i]);
        }
      }
      assert forall p | p in ports :: StoredAt(hash, ports, buckets, p);
      return None;
    }

    /** port_table_add_port */
    method AddPort(p: nat, c: Config)
      requires Valid() && p !in ports && ConfigOk(c) && !Has(ports, c.key)
      modifies `buckets, `ports, `count, `counters
      ensures Valid() && ports == old(ports)[p := c]
      ensures old(Counted(ports, counters)) ==> Counted(ports, counters)
    {
      var b := BucketOf(hash, c.key);
      SoundAdd(hash, ports, buckets, count, p, c);
      if Counted(ports, counters) {
        CountedAdd(ports, counters, p, c);
      }
      buckets := buckets[b := [p] + buckets[b]];
      count := count + 1;
      ports := ports[p := c];
      counters := counters.With(PoolOf(c), counters.At(PoolOf(c)) + 1);
    }

    /** port_table_remove_port */
    method RemovePort(p: nat)
      requires Valid() && Counted(ports, counters) && p in ports
      modifies `buckets, `ports, `count, `counters
      ensures Valid() && Counted(ports, counters) && ports == old(ports) - {p}
    {
      var c := ports[p];
      var b := BucketOf(hash, c.key);
      SoundRemove(hash, ports, buckets, count, p);
      CountedRemove(ports, counters, p);
      buckets := buckets[b := Without(buckets[b], p)];
      count := count - 1;
      counters := counters.With(PoolOf(c), counters.At(PoolOf(c)) - 1);
      ports := ports - {p};
    }

    /** The bucket and configuration part of port_table_move_port. */
    method Rehang(p: nat, c: Config)
      requires Valid() && p in ports && ConfigOk(c) && !Has(ports - {p}, c.key)
      modifies `buckets, `ports
      ensures Valid() && ports == old(ports)[p := c]
    {
      SoundMove(hash, ports, buckets, count, p, c);
      var b, n := BucketOf(hash, ports[p].key), BucketOf(hash, c.key);
      buckets := buckets[b := Without(buckets[b], p)];
      buckets := buckets[n := [p] + buckets[n]];
      ports := ports[p := c];
    }

    method Recount(from: Pool, to: Pool)
      requires counters.At(from) > 0
      modifies `counters
      ensures counters == Recounted(old(counters), from, to)
    {
      counters := counters.With(from, counters.At(from) - 1);
      counters := counters.With(to, counters.At(to) + 1);
    }

    /** port_table_move_port */
    method MovePort(p: nat, c: Config)
      requires Valid() && Counted(ports, counters) && p in ports && ConfigOk(c)
      requires !Has(ports - {p}, c.key)
      modifies `buckets, `ports, `counters
      ensures Valid() && Counted(ports, counters) && ports == old(ports)[p := c]
    {
      CountedMove(ports, counters, p, c);
      var from := PoolOf(ports[p]);
      Recount(from, PoolOf(c));
      Rehang(p, c);
    }

    /** tnl_set_config, as far as it decides about the key; no configuration is a request
        refused.  `current` is the port being changed, none for a new one. */
    method SetConfig(net: nat, proto: nat, o: Options, current: Option<nat>) returns (r: Option<Config>)
      requires Valid()
      ensures r.Some? <==> Acceptable(ports, net, proto, o, current)
      ensures r.Some? ==> r.value == ConfigFor(net, proto, o) && ConfigOk(r.value)
      ensures r.Some? ==> forall q | q in ports && ports[q].key == r.value.key :: current == Some(q)
    {
      if !o.hasFlags || o.dst.None? {
        return None;
      }
      var daddr, saddr := o.dst.value, 0;
      if o.src.Some? {
        if Multicast(daddr) {
          return None;
        }
        saddr := o.src.value;
      }
      if o.tos % (INET_ECN_MASK + 1) != 0 {
        return None;
      }
      var inKey, exact, inKeyMatch := 0, true, false;
      if o.inKey.None? {
        exact, inKeyMatch := false, true;
      } else {
        inKey := o.inKey.value;
      }
      if !o.headerFits {
        return None;
      }
      var key := PortKey(inKey, net, saddr, daddr, proto, exact);
      assert key == KeyFor(net, proto, o);
      var found := Lookup(key);
      if found.Some? && found != current {
        return None;
      }
      if Multicast(daddr) && !o.routed {
        return None;
      }
      forall q | q in ports && ports[q].key == key ensures current == Some(q) {
        FindsOnly(ports, key, q);
      }
      return Some(Config(key, inKeyMatch));
    }

    /** ovs_tnl_create for a port `p` that is not in the table yet. */
    method Create(p: nat, net: nat, proto: nat, o: Options) returns (ok: bool)
      requires Valid() && p !in ports
      modifies `buckets, `ports, `count, `counters
      ensures Valid() && (old(Counted(ports, counters)) ==> Counted(ports, counters))
      ensures ok <==> Acceptable(old(ports), net, proto, o, None)
      ensures ports == if ok then old(ports)[p := ConfigFor(net, proto, o)] else old(ports)
    {
      var c := SetConfig(net, proto, o, None);
      if c.None? {
        return false;
      }
      AddPort(p, c.value);
      return true;
    }

    /** ovs_tnl_set_options.  Keys stay unique; the counters stay right unless two keys of
        different classes collide in `hash`. */
    method SetOptions(p: nat, net: nat, proto: nat, o: Options) returns (ok: bool)
      requires Valid() && Counted(ports, counters) && p in ports
      modifies `buckets, `ports, `counters
      ensures Valid()
      ensures ok <==> Acceptable(old(ports), net, proto, o, Some(p))
      ensures ports == if ok then old(ports)[p := ConfigFor(net, proto, o)] else old(ports)
      ensures Counted(ports, counters) <==> !(ok && Drifts(hash, old(ports)[p], ConfigFor(net, proto, o)))
    {
      var r := SetConfig(net, proto, o, Some(p));
      if r.None? {
        return false;
      }
      var c := r.value;
      if hash(c.key) != hash(ports[p].key) {
        MovePort(p, c);
      } else {
        SoundReplace(hash, ports, buckets, count, p, c);
        CountedReplace(ports, counters, p, c);
        ports := ports[p := c];
      }
      return true;
    }

    /** The keys of ovs_tnl_find_port that name the remote end. */
    method FindRemote(net: nat, saddr: nat, daddr: nat, inKey: nat, proto: nat) returns (r: Option<nat>)
      requires Valid()
      ensures r == SearchRemote(Gates(counters), ports, net, saddr, daddr, inKey, proto)
    {
      var mc := Multicast(saddr);
      r := None;
      if !mc && counters.keyLocalRemote > 0 {
        r := Lookup(PortKey(inKey, net, saddr, daddr, proto, true));
      }
      if r.None? && counters.keyRemote > 0 {
        r := Lookup(PortKey(inKey, net, 0, daddr, proto, true));
      }
      if r.None? && !mc && counters.localRemote > 0 {
        r := Lookup(PortKey(0, net, saddr, daddr, proto, false));
      }
      if r.None? && counters.remote > 0 {
        r := Lookup(PortKey(0, net, 0, daddr, proto, false));
      }
    }

    /** ovs_tnl_find_port */
    method FindPort(net: nat, saddr: nat, daddr: nat, inKey: nat, proto: nat) returns (r: Option<nat>)
      requires Valid()
      ensures r == Gated(counters, ports, net, saddr, daddr, inKey, proto)
      ensures Counted(ports, counters) && !Multicast(daddr) ==>
                r == Ungated(ports, net, saddr, daddr, inKey, proto) && Best(ports, Packet(net, saddr, daddr, inKey, proto), r)
    {
      r := FindGated(net, saddr, daddr, inKey, proto);
      if Counted(ports, counters) && !Multicast(daddr) {
        GatesTransparent(counters, ports, net, saddr, daddr, inKey, proto);
        UngatedIsBest(ports, Packet(net, saddr, daddr, inKey, proto));
      }
    }

    method FindGated(net: nat, saddr: nat, daddr: nat, inKey: nat, proto: nat) returns (r: Option<nat>)
      requires Valid()
      ensures r == Gated(counters, ports, net, saddr, daddr, inKey, proto)
    {
      r := FindRemote(net, saddr, daddr, inKey, proto);
      if r.None? && Multicast(saddr) {
        if counters.keyMulticast > 0 {
          r := Lookup(PortKey(inKey, net, 0, saddr, proto, true));
        }
        if r.None? && counters.multicast > 0 {
          r := Lookup(PortKey(0, net, 0, saddr, proto, false));
        }
      }
    }
  }

  function OrZero(o: Option<nat>): nat {
    if o.Some? then o.value else 0
  }

  /** A remote address is required, a local one makes no sense for a multicast tunnel, the ToS
      must leave the ECN bits alone, and a multicast tunnel needs a route. */
  predicate WellFormed(o: Options) {
    && o.hasFlags && o.dst.Some? && !(o.src.Some? && Multicast(o.dst.value))
    && o.tos % (INET_ECN_MASK + 1) == 0 && o.headerFits && (Multicast(o.dst.value) ==> o.routed)
  }

  /** The key and the configuration a request asks for. */
  function KeyFor(net: nat, proto: nat, o: Options): PortKey {
    PortKey(OrZero(o.inKey), net, OrZero(o.src), OrZero(o.dst), proto, o.inKey.Some?)
  }

  function ConfigFor(net: nat, proto: nat, o: Options): Config {
    Config(KeyFor(net, proto, o), o.inKey.None?)
  }

  /** Which packets a port made by a request accepts, in terms of the request. */
  lemma RequestAccepts(net: nat, proto: nat, o: Options, pkt: Packet)
    requires WellFormed(o)
    ensures Accepts(ConfigFor(net, proto, o), pkt) <==>
              && pkt.net == net && pkt.proto == proto && (o.inKey.Some? ==> pkt.inKey == o.inKey.value)
              && (|| (pkt.daddr == o.dst.value && (o.src.None? || o.src == Some(0) || (o.src == Some(pkt.saddr) && !Multicast(pkt.saddr))))
                  || (pkt.saddr == o.dst.value && Multicast(pkt.saddr)))
  {
  }

  /** The request is well formed and no other port has the key. */
  ghost predicate Acceptable(ports: Ports, net: nat, proto: nat, o: Options, current: Option<nat>) {
    WellFormed(o) && Find(ports, KeyFor(net, proto, o)) in {None, current}
  }

  /** The two keys collide in the hash, and the ports count in different classes. */
  predicate Drifts(hash: PortKey -> nat, was: Config, c: Config) {
    hash(was.key) == hash(c.key) && PoolOf(was) != PoolOf(c)
  }

  // ---- Runs of requests ------------------------------------------------------------------

  datatype Request =
    | Make(p: nat, net: nat, proto: nat, o: Options)
    | Change(p: nat, net: nat, proto: nat, o: Options)
    | Drop(p: nat)

  /** The ports after a request, with no table and no counters. */
  ghost function Served(ports: Ports, r: Request): Ports {
    match r
    case Make(p, net, proto, o) => if p !in ports && Acceptable(ports, net, proto, o, None) then ports[p := ConfigFor(net, proto, o)] else ports
    case Change(p, net, proto, o) => if p in ports && Acceptable(ports, net, proto, o, Some(p)) then ports[p := ConfigFor(net, proto, o)] else ports
    case Drop(p) => ports - {p}
  }

  ghost function ServedAll(requests: seq<Request>): Ports {
    if requests == [] then map[] else Served(ServedAll(requests[..|requests| - 1]), requests[|requests| - 1])
  }

  /** Request `i` changes no port to a key of another class under the same hash. */
  ghost predicate NoDriftAt(hash: PortKey -> nat, requests: seq<Request>, i: nat)
    requires i < |requests|
  {
    var (ports, r) := (ServedAll(requests[..i]), requests[i]);
    r.Change? && r.p in ports && Acceptable(ports, r.net, r.proto, r.o, Some(r.p)) ==> !Drifts(hash, ports[r.p], ConfigFor(r.net, r.proto, r.o))
  }

  method Serve(t: Table, r: Request, ghost ports: Ports)
    requires t.Valid() && Counted(t.ports, t.counters) && t.ports == ports
    requires r.Change? && r.p in ports && Acceptable(ports, r.net, r.proto, r.o, Some(r.p)) ==> !Drifts(t.hash, ports[r.p], ConfigFor(r.net, r.proto, r.o))
    modifies t
    ensures t.Valid() && Counted(t.ports, t.counters) && t.ports == Served(ports, r)
  {
    match r {
      case Make(p, net, proto, o) =>
        if p !in t.ports {
          var _ := t.Create(p, net, proto, o);
        }
      case Change(p, net, proto, o) =>
        if p in t.ports {
          var _ := t.SetOptions(p, net, proto, o);
        }
      case Drop(p) =>
        if p in t.ports {
          t.RemovePort(p);
        } else {
          assert t.ports - {p} == t.ports;
        }
    }
  }

  /** After any run of requests without a hash collision between classes, a lookup finds what a
      search through the ports without any counter finds, which is the best port. */
  method FindAfter(hash: PortKey -> nat, requests: seq<Request>, net: nat, saddr: nat, daddr: nat, inKey: nat, proto: nat) returns (r: Option<nat>)
    requires forall i: nat | i < |requests| :: NoDriftAt(hash, requests, i)
    ensures !Multicast(daddr) ==> r == Ungated(ServedAll(requests), net, saddr, daddr, inKey, proto)
    ensures !Multicast(daddr) ==> Best(ServedAll(requests), Packet(net, saddr, daddr, inKey, proto), r)
  {
    var t := Build(hash, requests);
    r := t.FindPort(net, saddr, daddr, inKey, proto);
  }

  method Build(hash: PortKey -> nat, requests: seq<Request>) returns (t: Table)
    requires forall i: nat | i < |requests| :: NoDriftAt(hash, requests, i)
    ensures t.Valid() && Counted(t.ports, t.counters) && t.ports == ServedAll(requests)
  {
    t := new Table(hash);
    for i := 0 to |requests|
      invariant t.Valid() && fresh(t) && t.hash == hash
      invariant Counted(t.ports, t.counters) && t.ports == ServedAll(requests[..i])
    {
      assert NoDriftAt(hash, requests, i);
      Serve(t, requests[i], ServedAll(requests[..i]));
      assert requests[..i + 1][..i] == requests[..i];
    }
    assert requests[..|requests|] == requests;
  }

  /** A hash under which adding a local address to a tunnel makes the counters wrong. */
  method CountersDrift() returns (t: Table)
    ensures t.Valid() && !Counted(t.ports, t.counters)
  {
    t := new Table(_ => 0);
    var o := Options(true, Some(1), None, None, 0, true, true);
    var _ := t.Create(0, 0, 0, o);
    assert t.ports == map[][0 := ConfigFor(0, 0, o)];
    var local := o.(src := Some(2));
    var ok := t.SetOptions(0, 0, 0, local);
    assert ok;
  }
}

/** The Bloom filters of `lib/bf.c` and LazyCtrl's group table of them, `lib/bf-gdt.c`.  The
    bit array of a filter is a sequence of 1024 bits: bit `i` is bit `i % 8` of byte `i / 8`.
    The two hash functions are arbitrary. */
module Bloom {
  import opened Wrappers

  const ARRAY_BITS := 1024
  const MAX_FILTERS := 64

  type Host = seq<nat>
  datatype Hashes = Hashes(sax: Host -> nat, sdbm: Host -> nat)

  // ---- Filters as values -----------------------------------------------------------------

  /** struct bloom_filter */
  datatype Content = Content(id: nat, port: nat, len: nat, bits: seq<bool>)

  predicate LenOk(len: nat) {
    1 <= len <= ARRAY_BITS
  }

  predicate ContentOk(c: Content) {
    LenOk(c.len) && |c.bits| == ARRAY_BITS
  }

  /** The bits that stand for a host in a filter of `len` bits. */
  function Positions(hs: Hashes, host: Host, len: nat): (r: seq<nat>)
    requires len > 0
    ensures |r| == 2 && forall i | 0 <= i < |r| :: r[i] < len
  {
    [hs.sax(host) % len, hs.sdbm(host) % len]
  }

  /** All bits of the host are set. */
  predicate Holds(hs: Hashes, c: Content, host: Host)
    requires ContentOk(c)
  {
    forall i | 0 <= i < 2 :: c.bits[Positions(hs, host, c.len)[i]]
  }

  /** The number of bits in the whole bytes of a filter: what memcpy and memset cover. */
  function Whole(len: nat): nat {
    len / 8 * 8
  }

  /** `to` after the whole bytes of `from` were copied over it. */
  function Copied(to: Content, from: seq<bool>): (r: Content)
    requires ContentOk(to) && |from| == ARRAY_BITS
    ensures ContentOk(r)
  {
    to.(bits := from[..Whole(to.len)] + to.bits[Whole(to.len)..])
  }

  /** A copy between filters of equal length holds a host of the original exactly when the
      bits in an incomplete last byte were set before. */
  lemma CopyHolds(hs: Hashes, to: Content, from: Content, host: Host)
    requires ContentOk(to) && ContentOk(from) && to.len == from.len && Holds(hs, from, host)
    ensures Holds(hs, Copied(to, from.bits), host) <==>
            forall i | 0 <= i < 2 :: var p := Positions(hs, host, to.len)[i]; p >= Whole(to.len) ==> to.bits[p]
  {
    var c := Copied(to, from.bits);
    forall i | 0 <= i < 2
      ensures var p := Positions(hs, host, to.len)[i]; c.bits[p] == if p < Whole(to.len) then true else to.bits[p]
    {
      assert from.bits[Positions(hs, host, from.len)[i]];
    }
  }

  /** With whole bytes only, nothing is lost. */
  lemma WholeCopyHolds(hs: Hashes, to: Content, from: Content, host: Host)
    requires ContentOk(to) && ContentOk(from) && to.len == from.len && from.len % 8 == 0 && Holds(hs, from, host)
    ensures Holds(hs, Copied(to, from.bits), host)
  {
    CopyHolds(hs, to, from, host);
  }

  // ---- The table as a value --------------------------------------------------------------

  type Group = seq<Content>

  predicate GroupOk(g: Group) {
    |g| <= MAX_FILTERS && forall i | 0 <= i < |g| :: ContentOk(g[i])
  }

  predicate DistinctIds(g: Group) {
    forall i, j | 0 <= i < j < |g| :: g[i].id != g[j].id
  }

  /** The first filter with the given id, or the number of filters. */
  function IndexOf(g: Group, id: nat): (k: nat)
    ensures k <= |g| && (k < |g| ==> g[k].id == id) && forall i | 0 <= i < k :: g[i].id != id
  {
    if g == [] || g[0].id == id then 0 else 1 + IndexOf(g[1..], id)
  }

  /** A filter just created: its whole bytes are clear, the rest is as malloc left it. */
  function Fresh(id: nat, port: nat, len: nat, junk: seq<bool>): (c: Content)
    requires LenOk(len) && |junk| == ARRAY_BITS
    ensures ContentOk(c)
  {
    Content(id, port, len, seq(Whole(len), _ => false) + junk[Whole(len)..])
  }

  /** A new filter of whole bytes holds no host at all. */
  lemma FreshIsEmpty(hs: Hashes, id: nat, port: nat, len: nat, junk: seq<bool>, host: Host)
    requires LenOk(len) && len % 8 == 0 && |junk| == ARRAY_BITS
    ensures !Holds(hs, Fresh(id, port, len, junk), host)
  {
    assert !Fresh(id, port, len, junk).bits[Positions(hs, host, len)[0]];
  }

  function Added(g: Group, c: Content): Group {
    if |g| < MAX_FILTERS then g + [c] else g
  }

  function Deleted(g: Group, id: nat): Group {
    var k := IndexOf(g, id);
    if k == |g| then g else g[k := g[|g| - 1]][..|g| - 1]
  }

  function UpdatedWith(g: Group, c: Content, junk: seq<bool>): Group
    requires GroupOk(g) && ContentOk(c) && |junk| == ARRAY_BITS
  {
    var k := IndexOf(g, c.id);
    if k < |g| then g[k := Copied(g[k], c.bits)]
    else Added(g, Copied(Fresh(c.id, c.port, c.len, junk), c.bits))
  }

  function WithHost(hs: Hashes, c: Content, host: Host): (r: Content)
    requires ContentOk(c)
    ensures ContentOk(r) && Holds(hs, r, host)
    ensures forall other: Host :: Holds(hs, c, other) ==> Holds(hs, r, other)
    ensures forall i | 0 <= i < ARRAY_BITS && r.bits[i] != c.bits[i] :: i in Positions(hs, host, c.len)
    ensures r == c.(bits := r.bits)
  {
    var p := Positions(hs, host, c.len);
    c.(bits := c.bits[p[0] := true][p[1] := true])
  }

  function WithItem(hs: Hashes, g: Group, id: nat, host: Host): Group
    requires GroupOk(g)
  {
    var k := IndexOf(g, id);
    if k < |g| then g[k := WithHost(hs, g[k], host)] else g
  }

  /** One operation on a group table; `junk` is what newly allocated memory holds. */
  datatype Op =
    | Add(id: nat, port: nat, len: nat, junk: seq<bool>)
    | Delete(id: nat)
    | Update(filter: Content, junk: seq<bool>)
    | AddItem(id: nat, host: Host)

  predicate OpOk(op: Op) {
    match op
    case Add(_, _, len, junk) => LenOk(len) && |junk| == ARRAY_BITS
    case Update(c, junk) => ContentOk(c) && |junk| == ARRAY_BITS
    case _ => true
  }

  function Apply(hs: Hashes, g: Group, op: Op): Group
    requires GroupOk(g) && OpOk(op)
  {
    match op
    case Add(id, port, len, junk) => Added(g, Fresh(id, port, len, junk))
    case Delete(id) => Deleted(g, id)
    case Update(c, junk) => UpdatedWith(g, c, junk)
    case AddItem(id, host) => WithItem(hs, g, id, host)
  }

  lemma ApplyOk(hs: Hashes, g: Group, op: Op)
    requires GroupOk(g) && OpOk(op)
    ensures GroupOk(Apply(hs, g, op))
  {
  }

  /** Ids stay distinct under every operation except adding a filter under an id in use;
      with that one they do exactly when the table is full or the id is new. */
  lemma DistinctKept(hs: Hashes, g: Group, op: Op)
    requires GroupOk(g) && OpOk(op) && DistinctIds(g)
    ensures DistinctIds(Apply(hs, g, op)) <==>
            (op.Add? ==> |g| == MAX_FILTERS || forall i | 0 <= i < |g| :: g[i].id != op.id)
  {
    var n := Apply(hs, g, op);
    if op.Add? && |g| < MAX_FILTERS {
      assert n[|g|].id == op.id;
      if i :| 0 <= i < |g| && g[i].id == op.id {
        assert n[i].id == n[|g|].id;
      }
    }
  }

  // ---- No false negatives ----------------------------------------------------------------

  /** Some filter under this id, for this port, holds the host. */
  ghost predicate Tracks(hs: Hashes, g: Group, id: nat, port: nat, host: Host)
    requires GroupOk(g)
  {
    exists i | 0 <= i < |g| :: g[i].id == id && g[i].port == port && Holds(hs, g[i], host)
  }

  /** The port under which a filter is kept after an update: a filter that is already there
      keeps its own. */
  function PortAfter(g: Group, c: Content): nat {
    var k := IndexOf(g, c.id);
    if k < |g| then g[k].port else c.port
  }

  /** Overwriting an element with the last one and dropping that takes one element away. */
  lemma SwapOut(g: Group, k: nat)
    requires k < |g|
    ensures multiset(g[k := g[|g| - 1]][..|g| - 1]) == multiset(g) - multiset{g[k]}
  {
    var last := |g| - 1;
    var n := g[k := g[last]];
    assert n == n[..last] + [g[last]];
    var rest, less := multiset(n[..last]), multiset(g) - multiset{g[k]};
    assert multiset(n) == rest + multiset{g[last]};
    assert multiset(n) == less + multiset{g[last]};
    assert rest == rest + multiset{g[last]} - multiset{g[last]};
    assert less == less + multiset{g[last]} - multiset{g[last]};
  }

  /** Deletion removes the first filter with the id and nothing else, and without such a filter
      nothing at all. */
  lemma DeletedExactly(g: Group, id: nat)
    ensures var k := IndexOf(g, id);
            multiset(Deleted(g, id)) == if k < |g| then multiset(g) - multiset{g[k]} else multiset(g)
  {
    var k := IndexOf(g, id);
    if k < |g| {
      SwapOut(g, k);
    }
  }

  /** With distinct ids no filter has the id afterwards. */
  lemma DeletedIsGone(g: Group, id: nat)
    requires DistinctIds(g)
    ensures forall i | 0 <= i < |Deleted(g, id)| :: Deleted(g, id)[i].id != id
  {
    var k := IndexOf(g, id);
    if k < |g| {
      var n := Deleted(g, id);
      forall i | 0 <= i < |n| ensures n[i].id != id {
        assert n[i] == g[if i == k then |g| - 1 else i];
      }
    }
  }

  /** All filters have one length, which fills whole bytes. */
  predicate Uniform(g: Group, len: nat) {
    len % 8 == 0 && forall i | 0 <= i < |g| :: g[i].len == len
  }

  /** The operation creates no filter of another length, does not delete the filter, and does
      not overwrite it with one that lacks the host. */
  predicate Harmless(hs: Hashes, op: Op, id: nat, host: Host, len: nat)
    requires OpOk(op)
  {
    match op
    case Add(_, _, n, _) => n == len
    case Delete(k) => k != id
    case Update(c, _) => c.len == len && (c.id == id ==> Holds(hs, c, host))
    case AddItem(_, _) => true
  }

  /** bf_gdt_update_filter hands over every host of the sender's filter if the receiver has
      the id already or has room for it. */
  lemma UpdateTracks(hs: Hashes, g: Group, c: Content, junk: seq<bool>, host: Host, len: nat)
    requires GroupOk(g) && ContentOk(c) && |junk| == ARRAY_BITS && Uniform(g, len) && c.len == len && Holds(hs, c, host)
    requires |g| < MAX_FILTERS || IndexOf(g, c.id) < |g|
    ensures var n := UpdatedWith(g, c, junk); GroupOk(n) && Uniform(n, len) && Tracks(hs, n, c.id, PortAfter(g, c), host)
  {
    var k := IndexOf(g, c.id);
    var n := UpdatedWith(g, c, junk);
    WholeCopyHolds(hs, if k < |g| then g[k] else Fresh(c.id, c.port, c.len, junk), c, host);
    assert n[k].id == c.id && n[k].port == PortAfter(g, c) && Holds(hs, n[k], host);
  }

  /** Where the filter at position `i` is after a deletion. */
  function Shifted(g: Group, id: nat, i: nat): (j: nat)
    requires i < |g| && g[i].id != id
    ensures j < |Deleted(g, id)| && Deleted(g, id)[j] == g[i]
  {
    var k := IndexOf(g, id);
    if k < |g| && i == |g| - 1 then k else i
  }

  lemma StepTracks(hs: Hashes, g: Group, op: Op, id: nat, port: nat, host: Host, len: nat)
    requires GroupOk(g) && OpOk(op) && Uniform(g, len) && Tracks(hs, g, id, port, host) && Harmless(hs, op, id, host, len)
    ensures var n := Apply(hs, g, op); GroupOk(n) && Uniform(n, len) && Tracks(hs, n, id, port, host)
  {
    ApplyOk(hs, g, op);
    var n := Apply(hs, g, op);
    var i :| 0 <= i < |g| && g[i].id == id && g[i].port == port && Holds(hs, g[i], host);
    var j := if op.Delete? then Shifted(g, op.id, i) else i;
    if op.Update? && IndexOf(g, op.filter.id) == i {
      WholeCopyHolds(hs, g[i], op.filter, host);
    }
    assert n[j].id == id && n[j].port == port && Holds(hs, n[j], host);
  }

  predicate AllHarmless(hs: Hashes, ops: seq<Op>, id: nat, host: Host, len: nat) {
    forall i | 0 <= i < |ops| :: OpOk(ops[i]) && Harmless(hs, ops[i], id, host, len)
  }

  /** The table after a run of operations. */
  function Run(hs: Hashes, g: Group, ops: seq<Op>): (r: Group)
    requires GroupOk(g) && forall i | 0 <= i < |ops| :: OpOk(ops[i])
    ensures GroupOk(r)
    decreases |ops|
  {
    if ops == [] then g else Run(hs, (ApplyOk(hs, g, ops[0]); Apply(hs, g, ops[0])), ops[1..])
  }

  lemma {:induction false} RunTracks(hs: Hashes, g: Group, ops: seq<Op>, id: nat, port: nat, host: Host, len: nat)
    requires GroupOk(g) && Uniform(g, len) && Tracks(hs, g, id, port, host) && AllHarmless(hs, ops, id, host, len)
    ensures Tracks(hs, Run(hs, g, ops), id, port, host)
    decreases |ops|
  {
    if ops != [] {
      StepTracks(hs, g, ops[0], id, port, host, len);
      RunTracks(hs, Apply(hs, g, ops[0]), ops[1..], id, port, host, len);
    }
  }

  /** A host put into a sender's filter is found at a receiver that got the filter, after any
      further operations there that do not delete or overwrite it, and under the sender's port
      if the receiver had no filter with that id. */
  lemma NoFalseNegative(hs: Hashes, sender: Content, more: seq<Host>, receiver: Group, junk: seq<bool>, ops: seq<Op>, host: Host)
    requires ContentOk(sender) && GroupOk(receiver) && |junk| == ARRAY_BITS && Uniform(receiver, sender.len) && sender.len % 8 == 0
    requires |receiver| < MAX_FILTERS || IndexOf(receiver, sender.id) < |receiver|
    requires host in more && AllHarmless(hs, ops, sender.id, host, sender.len)
    ensures var filter := WithHosts(hs, sender, more);
            ContentOk(filter) && GroupOk(UpdatedWith(receiver, filter, junk)) &&
            Tracks(hs, Run(hs, UpdatedWith(receiver, filter, junk), ops), sender.id, PortAfter(receiver, sender), host)
  {
    var filter := WithHosts(hs, sender, more);
    WithHostsHolds(hs, sender, more, host);
    UpdateTracks(hs, receiver, filter, junk, host, sender.len);
    RunTracks(hs, UpdatedWith(receiver, filter, junk), ops, sender.id, PortAfter(receiver, sender), host, sender.len);
  }

  /** The sender's filter after several hosts were added. */
  function WithHosts(hs: Hashes, c: Content, hosts: seq<Host>): (r: Content)
    requires ContentOk(c)
    ensures ContentOk(r) && r == c.(bits := r.bits)
    decreases |hosts|
  {
    if hosts == [] then c else WithHosts(hs, WithHost(hs, c, hosts[0]), hosts[1..])
  }

  lemma {:induction false} WithHostsHolds(hs: Hashes, c: Content, hosts: seq<Host>, host: Host)
    requires ContentOk(c) && (host in hosts || Holds(hs, c, host))
    ensures Holds(hs, WithHosts(hs, c, hosts), host)
    decreases |hosts|
  {
    if hosts != [] {
      WithHostsHolds(hs, WithHost(hs, c, hosts[0]), hosts[1..], host);
    }
  }

  /** Every filter is added under an id that no filter has at that point. */
  ghost predicate AddsNewIds(hs: Hashes, g: Group, ops: seq<Op>)
    requires GroupOk(g) && forall i | 0 <= i < |ops| :: OpOk(ops[i])
    decreases |ops|
  {
    ops == [] ||
    (ApplyOk(hs, g, ops[0]);
     (ops[0].Add? ==> forall i | 0 <= i < |g| :: g[i].id != ops[0].id) && AddsNewIds(hs, Apply(hs, g, ops[0]), ops[1..]))
  }

  /** Over every such run ids stay distinct, and there are never more than 64 filters. */
  lemma {:induction false} RunDistinct(hs: Hashes, g: Group, ops: seq<Op>)
    requires GroupOk(g) && (forall i | 0 <= i < |ops| :: OpOk(ops[i])) && DistinctIds(g) && AddsNewIds(hs, g, ops)
    ensures DistinctIds(Run(hs, g, ops)) && |Run(hs, g, ops)| <= MAX_FILTERS
    decreases |ops|
  {
    if ops != [] {
      ApplyOk(hs, g, ops[0]);
      DistinctKept(hs, g, ops[0]);
      RunDistinct(hs, Apply(hs, g, ops[0]), ops[1..]);
    }
  }

  /** Adding the same id twice to an empty table gives two filters with that id. */
  lemma SameIdTwice(hs: Hashes, id: nat, port: nat, len: nat, junk: seq<bool>)
    requires LenOk(len) && |junk| == ARRAY_BITS
    ensures var add := Add(id, port, len, junk);
            !DistinctIds(Run(hs, [], [add, add]))
  {
    var add := Add(id, port, len, junk);
    var c := Fresh(id, port, len, junk);
    assert Apply(hs, [], add) == [c] && Apply(hs, [c], add) == [c, c];
    assert [add, add][1..] == [add];
    assert Run(hs, [c], [add]) == Run(hs, [c, c], [add][1..]);
    assert Run(hs, [], [add, add]) == [c, c];
    assert [c, c][0].id == [c, c][1].id;
  }

  /** An update under a new id does nothing to a full table. */
  lemma FullTableDropsUpdate(g: Group, c: Content, junk: seq<bool>)
    requires GroupOk(g) && |g| == MAX_FILTERS && ContentOk(c) && |junk| == ARRAY_BITS
    requires forall i | 0 <= i < |g| :: g[i].id != c.id
    ensures UpdatedWith(g, c, junk) == g
  {
    assert IndexOf(g, c.id) == |g|;
  }

  /** For every length that is not a multiple of 8 there are hash functions and a host that a
      filter holds and its copy does not. */
  lemma TailIsLost(len: nat, host: Host) returns (hs: Hashes, from: Content, to: Content)
    requires LenOk(len) && len % 8 != 0
    ensures ContentOk(from) && ContentOk(to) && from.len == to.len == len
    ensures Holds(hs, from, host) && !Holds(hs, Copied(to, from.bits), host)
  {
    hs := Hashes(_ => len - 1, _ => len - 1);
    from := Content(0, 0, len, seq(ARRAY_BITS, _ => true));
    to := Content(0, 0, len, seq(ARRAY_BITS, _ => false));
    InTail(len);
    assert Positions(hs, host, len) == [len - 1, len - 1];
    CopyHolds(hs, to, from, host);
    assert !to.bits[Positions(hs, host, len)[0]];
  }

  lemma InTail(len: nat)
    requires len % 8 != 0
    ensures (len - 1) % len == len - 1 >= Whole(len)
  {
  }

  // ---- The data structures ---------------------------------------------------------------

  class Filter {
    const hs: Hashes
    const id: nat
    const port: nat
    const len: nat
    var bits: seq<bool>

    ghost predicate Valid()
      reads this
    {
      ContentOk(Value())
    }

    function Value(): Content
      reads this
    {
      Content(id, port, len, bits)
    }

    /** bf_create, with `junk` the previous content of the memory. */
    constructor (hs: Hashes, id: nat, len: nat, port: nat, junk: seq<bool>)
      requires LenOk(len) && |junk| == ARRAY_BITS
      ensures Valid() && this.hs == hs && Value() == Fresh(id, port, len, junk)
    {
      this.hs, this.id, this.port, this.len := hs, id, port, len;
      bits := seq(len / 8 * 8, _ => false) + junk[len / 8 * 8..];
    }

    method Hash(i: nat, host: Host) returns (p: nat)
      requires Valid() && i < 2
      ensures p == Positions(hs, host, len)[i] && p < len
    {
      p := (if i == 0 then hs.sax(host) else hs.sdbm(host)) % len;
    }

    /** bf_add */
    method Add(host: Host)
      requires Valid()
      modifies `bits
      ensures Valid() && Value() == WithHost(hs, old(Value()), host)
    {
      for i := 0 to 2
        invariant |bits| == ARRAY_BITS
        invariant i == 0 ==> bits == old(bits)
        invariant i == 1 ==> bits == old(bits)[Positions(hs, host, len)[0] := true]
        invariant i == 2 ==> bits == WithHost(hs, old(Value()), host).bits
      {
        var p := Hash(i, host);
        bits := bits[p := true];
      }
    }

    /** bf_check */
    method Check(host: Host) returns (found: bool)
      requires Valid()
      ensures found <==> Holds(hs, Value(), host)
    {
      for i := 0 to 2
        invariant forall j | 0 <= j < i :: bits[Positions(hs, host, len)[j]]
      {
        var p := Hash(i, host);
        if !bits[p] {
          return false;
        }
      }
      return true;
    }
  }

  /** The contents of a list of filters. */
  ghost function Values(objs: seq<Filter>): (g: Group)
    reads objs
    ensures |g| == |objs| && forall i | 0 <= i < |objs| :: g[i] == objs[i].Value()
  {
    seq(|objs|, i requires 0 <= i < |objs| reads objs => objs[i].Value())
  }

  lemma ValuesDeleted(objs: seq<Filter>, k: nat)
    requires k < |objs|
    ensures Values(objs[k := objs[|objs| - 1]][..|objs| - 1]) == Values(objs)[k := Values(objs)[|objs| - 1]][..|objs| - 1]
  {
  }

  class Table {
    const hs: Hashes
    const filters: array<Filter?>
    var nbf: nat
    ghost var objs: seq<Filter>

    /** bf_gdt_init */
    constructor (hs: Hashes)
      ensures Valid() && fresh(filters) && this.hs == hs && objs == []
    {
      this.hs, nbf, objs := hs, 0, [];
      filters := new Filter?[MAX_FILTERS](_ => null);
    }

    ghost predicate Valid()
      reads this, filters, objs
    {
      && filters.Length == MAX_FILTERS && nbf == |objs| <= MAX_FILTERS
      && (forall i | 0 <= i < nbf :: filters[i] == objs[i])
      && (forall i | 0 <= i < nbf :: objs[i].hs == hs && objs[i].Valid())
      && (forall i, j | 0 <= i < j < nbf :: objs[i] != objs[j])
    }

    /** The position bf_gdt_find_filter, bf_gdt_del_filter and bf_gdt_add_item look for. */
    method Locate(id: nat) returns (k: nat)
      requires Valid()
      ensures k == IndexOf(Values(objs), id)
    {
      k := 0;
      while k < nbf && filters[k].id != id
        invariant k <= nbf && forall i | 0 <= i < k :: objs[i].id != id
      {
        k := k + 1;
      }
      First(Values(objs), id, k);
    }

    /** bf_gdt_find_filter */
    method FindFilter(id: nat) returns (f: Filter?)
      requires Valid()
      ensures var k := IndexOf(Values(objs), id); f == if k < nbf then objs[k] else null
    {
      var k := Locate(id);
      f := if k < nbf then filters[k] else null;
    }

    /** bf_gdt_add_filter */
    method AddFilter(id: nat, port: nat, len: nat, junk: seq<bool>) returns (f: Filter?)
      requires Valid() && LenOk(len) && |junk| == ARRAY_BITS
      modifies `nbf, `objs, filters
      ensures Valid() && Values(objs) == Added(old(Values(objs)), Fresh(id, port, len, junk))
      ensures if f == null then objs == old(objs) && old(nbf) == MAX_FILTERS else fresh(f) && objs == old(objs) + [f]
    {
      if nbf >= MAX_FILTERS {
        return null;
      }
      f := new Filter(hs, id, len, port, junk);
      filters[nbf] := f;
      nbf := nbf + 1;
      objs := objs + [f];
    }

    /** The last filter takes the place of the one at position `k`. */
    method RemoveAt(k: nat)
      requires Valid() && k < nbf
      modifies `nbf, `objs, filters
      ensures Valid() && objs == old(objs)[k := old(objs)[|old(objs)| - 1]][..|old(objs)| - 1]
    {
      var last := nbf - 1;
      if k != last {
        filters[k] := filters[last];
      }
      filters[last] := null;
      objs := objs[k := objs[last]][..last];
      nbf := last;
    }

    /** bf_gdt_del_filter */
    method DelFilter(id: nat) returns (code: int)
      requires Valid()
      modifies `nbf, `objs, filters
      ensures Valid() && Values(objs) == Deleted(old(Values(objs)), id)
      ensures code == if |objs| < old(|objs|) then 0 else 1
    {
      var k := Locate(id);
      if k == nbf {
        return 1;
      }
      ValuesDeleted(objs, k);
      RemoveAt(k);
      return 0;
    }

    /** bf_gdt_add_item */
    method AddItem(id: nat, host: Host) returns (code: int)
      requires Valid()
      modifies objs`bits
      ensures Valid() && Values(objs) == WithItem(hs, old(Values(objs)), id, host)
      ensures code == if IndexOf(old(Values(objs)), id) < nbf then 0 else -1
    {
      var k := Locate(id);
      if k == nbf {
        return -1;
      }
      filters[k].Add(host);
      return 0;
    }

    /** bf_gdt_check: the first filter that has the host, none only if no filter has it. */
    method Check(host: Host) returns (f: Filter?)
      requires Valid()
      ensures f == null ==> forall i | 0 <= i < nbf :: !Holds(hs, objs[i].Value(), host)
      ensures f != null ==> f in objs && Holds(hs, f.Value(), host)
    {
      for i := 0 to nbf
        invariant forall j | 0 <= j < i :: !Holds(hs, objs[j].Value(), host)
      {
        var found := filters[i].Check(host);
        if found {
          return filters[i];
        }
      }
      return null;
    }

    /** bf_gdt_insert_filter */
    method InsertFilter(bf: Filter, junk: seq<bool>) returns (f: Filter?)
      requires Valid() && bf.Valid() && bf !in objs && |junk| == ARRAY_BITS
      modifies `nbf, `objs, filters
      ensures Valid() && Values(objs) == Added(old(Values(objs)), Copied(Fresh(bf.id, bf.port, bf.len, junk), bf.bits))
      ensures f == null <==> old(nbf) == MAX_FILTERS
    {
      f := AddFilter(bf.id, bf.port, bf.len, junk);
      if f != null {
        assert f == objs[nbf - 1] && f.Value() == Fresh(bf.id, bf.port, bf.len, junk);
        CopyBits(f, bf);
      }
    }

    /** Copies a filter's content over the one at position `k`, if it differs. */
    method Overwrite(k: nat, bf: Filter) returns (changed: bool)
      requires Valid() && bf.Valid() && bf !in objs && k < nbf
      modifies objs`bits
      ensures Valid() && Values(objs) == old(Values(objs))[k := Copied(old(objs[k].Value()), bf.bits)]
      ensures changed <==> Values(objs) != old(Values(objs))
    {
      var f := filters[k];
      changed := f.bits[..f.len / 8 * 8] != bf.bits[..f.len / 8 * 8];
      if changed {
        CopyBits(f, bf);
        assert f.bits[..f.len / 8 * 8] == bf.bits[..f.len / 8 * 8];
      } else {
        assert Copied(f.Value(), bf.bits) == f.Value();
      }
    }

    /** bf_gdt_update_filter.  A filter for which there is no room is dropped, although the
        result says that it was added. */
    method UpdateFilter(bf: Filter, junk: seq<bool>) returns (code: int)
      requires Valid() && bf.Valid() && bf !in objs && |junk| == ARRAY_BITS
      modifies `nbf, `objs, filters, objs`bits
      ensures Valid() && Values(objs) == UpdatedWith(old(Values(objs)), bf.Value(), junk)
      ensures code == if IndexOf(old(Values(objs)), bf.id) == old(nbf) then 2
                      else if Values(objs) != old(Values(objs)) then 1 else -1
    {
      var k := Locate(bf.id);
      if k == nbf {
        var _ := InsertFilter(bf, junk);
        return 2;
      }
      var changed := Overwrite(k, bf);
      return if changed then 1 else -1;
    }
  }

  /** memcpy of the whole bytes of a filter. */
  method CopyBits(to: Filter, from: Filter)
    requires to.Valid() && from.Valid()
    modifies to`bits
    ensures to.Valid() && to.Value() == Copied(old(to.Value()), old(from.bits))
  {
    to.bits := from.bits[..to.len / 8 * 8] + to.bits[to.len / 8 * 8..];
  }

  lemma {:induction false} First(g: Group, id: nat, k: nat)
    requires k <= |g| && (k < |g| ==> g[k].id == id) && forall i | 0 <= i < k :: g[i].id != id
    ensures k == IndexOf(g, id)
  {
  }
}

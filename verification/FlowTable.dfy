/** The kernel flow table of `datapath/flow.c`.  Every flow has two hash links, and a table
    uses one of them, so that a rehash can build the new table through the other one while
    readers still walk the old table. */
module FlowTable {

  /** struct sw_flow, with `hash_node[0]` and `hash_node[1]` as next pointers. */
  class SwFlow {
    const key: nat
    const hash: nat
    var next0: SwFlow?
    var next1: SwFlow?

    constructor (key: nat, hash: nat)
      ensures this.key == key && this.hash == hash
    {
      this.key, this.hash := key, hash;
      next0, next1 := null, null;
    }

    function Next(ver: bool): SwFlow?
      reads this
    {
      if ver then next1 else next0
    }

    method SetNext(ver: bool, f: SwFlow?)
      modifies `next0, `next1
      ensures Next(ver) == f && Next(!ver) == old(Next(!ver))
    {
      if ver {
        next1 := f;
      } else {
        next0 := f;
      }
    }
  }

  /** The links of version `ver` stored in the flows of a chain. */
  ghost function Links(chain: seq<SwFlow>, ver: bool): (r: seq<SwFlow?>)
    reads chain
    ensures |r| == |chain| && forall i | 0 <= i < |chain| :: r[i] == chain[i].Next(ver)
  {
    seq(|chain|, i requires 0 <= i < |chain| reads chain => chain[i].Next(ver))
  }

  /** Link `i` leads to the next flow of the chain, the last one to nothing. */
  predicate LinkAt(chain: seq<SwFlow>, links: seq<SwFlow?>, i: nat)
    requires i < |chain| == |links|
  {
    links[i] == if i + 1 < |chain| then chain[i + 1] else null
  }

  /** A walk from `head` along `links` visits exactly `chain`. */
  predicate Spells(chain: seq<SwFlow>, links: seq<SwFlow?>, head: SwFlow?) {
    && |links| == |chain|
    && head == (if chain == [] then null else chain[0])
    && (forall i: nat | i < |chain| :: LinkAt(chain, links, i))
    && (forall i, j | 0 <= i < j < |chain| :: chain[i] != chain[j])
  }

  lemma Pushed(chain: seq<SwFlow>, links: seq<SwFlow?>, f: SwFlow, head: SwFlow?)
    requires Spells(chain, links, head) && f !in chain
    ensures Spells([f] + chain, [head] + links, f)
  {
    var c, l := [f] + chain, [head] + links;
    forall i: nat | i < |c| ensures LinkAt(c, l, i) {
      if i > 0 {
        assert LinkAt(chain, links, i - 1);
      }
    }
  }

  ghost function Without<T>(s: seq<T>, i: nat): seq<T>
    requires i < |s|
  {
    s[..i] + s[i + 1..]
  }

  /** Links of a chain after the link leading to position `i` skips it. */
  ghost function Skip(links: seq<SwFlow?>, i: nat): seq<SwFlow?>
    requires i < |links|
  {
    Without(if i == 0 then links else links[i - 1 := links[i]], i)
  }

  lemma Dropped(chain: seq<SwFlow>, links: seq<SwFlow?>, head: SwFlow?, i: nat)
    requires Spells(chain, links, head) && i < |chain|
    ensures Spells(Without(chain, i), Skip(links, i), if i == 0 then links[0] else head)
  {
    var c, l := Without(chain, i), Skip(links, i);
    assert LinkAt(chain, links, i);
    forall k: nat | k < |c| ensures LinkAt(c, l, k) {
      assert LinkAt(chain, links, if k < i then k else k + 1);
    }
  }

  function Total(chains: seq<seq<SwFlow>>): nat {
    if chains == [] then 0 else Total(chains[..|chains| - 1]) + |chains[|chains| - 1]|
  }

  ghost function Members(chains: seq<seq<SwFlow>>): set<SwFlow> {
    set b, i | 0 <= b < |chains| && 0 <= i < |chains[b]| :: chains[b][i]
  }

  ghost function AllLinks(chains: seq<seq<SwFlow>>, ver: bool): (r: seq<seq<SwFlow?>>)
    reads Members(chains)
    ensures |r| == |chains| && forall b | 0 <= b < |chains| :: r[b] == Links(chains[b], ver)
  {
    seq(|chains|, b requires 0 <= b < |chains| reads Members(chains) =>
      assert forall i | 0 <= i < |chains[b]| :: chains[b][i] in Members(chains);
      Links(chains[b], ver))
  }

  // ---- Lookup as a function of heads and links -------------------------------------------

  ghost function NextMap(flows: set<SwFlow>, ver: bool): map<SwFlow, SwFlow?>
    reads flows
  {
    map f | f in flows :: f.Next(ver)
  }

  /** The walk of a reader from `f` along `next`. */
  ghost function Follow(next: map<SwFlow, SwFlow?>, f: SwFlow?, key: nat, hash: nat): SwFlow?
    decreases |next|
  {
    if f == null || f !in next then null
    else if f.hash == hash && f.key == key then f
    else Follow(next - {f}, next[f], key, hash)
  }

  ghost function FirstMatch(chain: seq<SwFlow>, key: nat, hash: nat): (r: SwFlow?)
    ensures r != null ==> r in chain && r.hash == hash && r.key == key
    ensures r == null ==> forall i | 0 <= i < |chain| :: !(chain[i].hash == hash && chain[i].key == key)
  {
    if chain == [] then null
    else if chain[0].hash == hash && chain[0].key == key then chain[0]
    else FirstMatch(chain[1..], key, hash)
  }

  lemma {:induction false} FirstMatchSkips(chain: seq<SwFlow>, key: nat, hash: nat, i: nat)
    requires i <= |chain| && forall k | 0 <= k < i :: !(chain[k].hash == hash && chain[k].key == key)
    ensures FirstMatch(chain, key, hash) == FirstMatch(chain[i..], key, hash)
  {
    if i > 0 {
      FirstMatchSkips(chain[1..], key, hash, i - 1);
      assert chain[1..][i - 1..] == chain[i..];
    } else {
      assert chain[0..] == chain;
    }
  }

  /** The links in `next` lead along the chain, as far as flow `i` is concerned. */
  ghost predicate Leads(next: map<SwFlow, SwFlow?>, chain: seq<SwFlow>, i: nat)
    requires i < |chain|
  {
    chain[i] in next && next[chain[i]] == if i + 1 < |chain| then chain[i + 1] else null
  }

  lemma {:induction false} FollowFinds(next: map<SwFlow, SwFlow?>, chain: seq<SwFlow>, key: nat, hash: nat)
    requires forall i: nat | i < |chain| :: Leads(next, chain, i)
    requires forall i, j | 0 <= i < j < |chain| :: chain[i] != chain[j]
    ensures Follow(next, if chain == [] then null else chain[0], key, hash) == FirstMatch(chain, key, hash)
    decreases |chain|
  {
    if chain != [] {
      assert Leads(next, chain, 0);
      var rest, n := chain[1..], next - {chain[0]};
      forall i: nat | i < |rest| ensures Leads(n, rest, i) {
        assert Leads(next, chain, i + 1);
      }
      FollowFinds(n, rest, key, hash);
    }
  }

  class Table {
    const heads: array<SwFlow?>
    const mix: nat -> nat  // jhash_1word with this table's seed
    var count: nat
    var nodeVer: bool
    var keepFlows: bool
    ghost var chains: seq<seq<SwFlow>>

    /** ovs_flow_tbl_alloc */
    constructor (nBuckets: nat, mix: nat -> nat, nodeVer: bool)
      requires nBuckets > 0
      ensures Valid() && fresh(heads) && heads.Length == nBuckets
      ensures this.mix == mix && this.nodeVer == nodeVer && count == 0 && !keepFlows
      ensures chains == seq(nBuckets, _ => [])
    {
      heads := new SwFlow?[nBuckets](_ => null);
      this.mix, this.nodeVer := mix, nodeVer;
      count, keepFlows := 0, false;
      chains := seq(nBuckets, _ => []);
      new;
      EmptyTotal(nBuckets);
    }

    /** find_bucket */
    function Bucket(hash: nat): nat
      requires heads.Length > 0
    {
      mix(hash) % heads.Length
    }

    /** Bucket `b` is the walk from `head` along `links`, and all its flows hash there. */
    ghost predicate BucketOk(b: nat, chain: seq<SwFlow>, links: seq<SwFlow?>, head: SwFlow?)
      requires heads.Length > 0
    {
      Spells(chain, links, head) && forall i | 0 <= i < |chain| :: Bucket(chain[i].hash) == b
    }

    /** The given heads and links make up the buckets `chains`. */
    ghost predicate BucketsOk(hs: seq<SwFlow?>, chains: seq<seq<SwFlow>>, links: seq<seq<SwFlow?>>) {
      && heads.Length > 0 && |hs| == |chains| == |links| == heads.Length
      && forall b: nat | b < |chains| :: BucketOk(b, chains[b], links[b], hs[b])
    }

    ghost predicate Valid()
      reads `count, `nodeVer, `chains, heads, Members(chains)
    {
      BucketsOk(heads[..], chains, AllLinks(chains, nodeVer)) && count == Total(chains)
    }

    lemma PushedOk(hs: seq<SwFlow?>, chains: seq<seq<SwFlow>>, links: seq<seq<SwFlow?>>, f: SwFlow)
      requires BucketsOk(hs, chains, links) && f !in chains[Bucket(f.hash)]
      ensures var b := Bucket(f.hash);
              BucketsOk(hs[b := f], chains[b := [f] + chains[b]], links[b := [hs[b]] + links[b]])
    {
      var b := Bucket(f.hash);
      assert BucketOk(b, chains[b], links[b], hs[b]);
      Pushed(chains[b], links[b], f, hs[b]);
    }

    lemma LinksPushed(chains: seq<seq<SwFlow>>, links: seq<seq<SwFlow?>>, b: nat, f: SwFlow, ver: bool)
      requires AllLinks(chains, ver) == links && b < |chains|
      ensures AllLinks(chains[b := [f] + chains[b]], ver) == links[b := [f.Next(ver)] + links[b]]
    {
      var c := chains[b := [f] + chains[b]];
      forall d | 0 <= d < |c| ensures Links(c[d], ver) == links[b := [f.Next(ver)] + links[b]][d] {
        assert links[d] == Links(chains[d], ver);
      }
    }

    /** The first write of ovs_flow_tbl_insert: the flow points at the bucket, but nothing
        points at the flow yet. */
    method Prepare(f: SwFlow)
      requires heads.Length > 0
      modifies f`next0, f`next1
      ensures f.Next(nodeVer) == heads[Bucket(f.hash)] && f.Next(!nodeVer) == old(f.Next(!nodeVer))
    {
      f.SetNext(nodeVer, heads[Bucket(f.hash)]);
    }

    /** The second write: the flow becomes the head of its bucket. */
    method Publish(f: SwFlow)
      requires Valid() && f !in Members(chains) && f.Next(nodeVer) == heads[Bucket(f.hash)]
      modifies `count, `chains, heads
      ensures Valid()
      ensures var b := Bucket(f.hash); chains == old(chains)[b := [f] + old(chains)[b]]
    {
      var b := Bucket(f.hash);
      ghost var was, hs, links := chains, heads[..], AllLinks(chains, nodeVer);
      PushedOk(hs, was, links, f);
      heads[b] := f;
      count := count + 1;
      TotalPush(was, b, f);
      chains := was[b := [f] + was[b]];
      assert heads[..] == hs[b := f];
      LinksPushed(was, links, b, f, nodeVer);
    }

    /** ovs_flow_tbl_insert: pushes the flow on its bucket, through this table's link only.
        Between the two writes a reader of this table still walks the old buckets. */
    method Insert(f: SwFlow)
      requires Valid() && f !in Members(chains)
      modifies `count, `chains, heads, f`next0, f`next1
      ensures Valid()
      ensures var b := Bucket(f.hash); chains == old(chains)[b := [f] + old(chains)[b]]
      ensures f.Next(!nodeVer) == old(f.Next(!nodeVer))
    {
      Prepare(f);
      Answers(this, heads[..], chains, AllLinks(chains, nodeVer));
      assert AnswersAs(this, chains);
      Publish(f);
    }

    lemma DroppedOk(hs: seq<SwFlow?>, chains: seq<seq<SwFlow>>, links: seq<seq<SwFlow?>>, b: nat, i: nat)
      requires BucketsOk(hs, chains, links) && b < |chains| && i < |chains[b]|
      ensures |links| == |hs| == |chains| && |links[b]| == |chains[b]|
      ensures BucketsOk(if i == 0 then hs[b := links[b][0]] else hs,
                        chains[b := Without(chains[b], i)], links[b := Skip(links[b], i)])
    {
      assert BucketOk(b, chains[b], links[b], hs[b]);
      Dropped(chains[b], links[b], hs[b], i);
    }

    /** A flow of bucket `b` stands at one place only. */
    lemma OnePlace(hs: seq<SwFlow?>, chains: seq<seq<SwFlow>>, links: seq<seq<SwFlow?>>, b: int, i: int, c: int, k: int)
      requires BucketsOk(hs, chains, links)
      requires 0 <= b < |chains| && 0 <= i < |chains[b]| && 0 <= c < |chains| && 0 <= k < |chains[c]|
      ensures chains[b][i] == chains[c][k] <==> b == c && i == k
    {
      assert BucketOk(b, chains[b], links[b], hs[b]);
      assert BucketOk(c, chains[c], links[c], hs[c]);
    }

    lemma LinksDropped(hs: seq<SwFlow?>, chains: seq<seq<SwFlow>>, links: seq<seq<SwFlow?>>, b: nat, i: nat, prev: SwFlow?, ver: bool)
      requires BucketsOk(hs, chains, links) && b < |chains| && i < |chains[b]|
      requires prev == if i == 0 then null else chains[b][i - 1]
      requires forall c | 0 <= c < |chains| :: |links[c]| == |chains[c]|
      requires forall c, k | 0 <= c < |chains| && 0 <= k < |chains[c]| && chains[c][k] != prev ::
                 chains[c][k].Next(ver) == links[c][k]
      requires prev != null ==> prev.Next(ver) == links[b][i]
      ensures AllLinks(chains[b := Without(chains[b], i)], ver) == links[b := Skip(links[b], i)]
      ensures chains[b][i] != prev
    {
      if i > 0 {
        OnePlace(hs, chains, links, b, i, b, i - 1);
      }
      var n, l := chains[b := Without(chains[b], i)], links[b := Skip(links[b], i)];
      forall d | 0 <= d < |n| ensures Links(n[d], ver) == l[d] {
        forall k | 0 <= k < |n[d]| ensures n[d][k].Next(ver) == l[d][k] {
          if i > 0 {
            OnePlace(hs, chains, links, b, i - 1, d, if d == b && k >= i then k + 1 else k);
          }
        }
      }
    }

    /** Makes whatever leads to a flow of bucket `b` lead to `next` instead. */
    method Redirect(b: nat, prev: SwFlow?, next: SwFlow?)
      requires b < heads.Length
      modifies heads, if prev == null then {} else {prev}
      ensures heads[..] == if prev == null then old(heads[..])[b := next] else old(heads[..])
      ensures prev != null ==> prev.Next(nodeVer) == next && prev.Next(!nodeVer) == old(prev.Next(!nodeVer))
    {
      if prev == null {
        heads[b] := next;
      } else {
        prev.SetNext(nodeVer, next);
      }
    }

    /** ovs_flow_tbl_remove: `prev` is the flow whose link leads to `f`, none when the bucket
        head does.  The removed flow keeps its own link for readers that stand on it. */
    method Remove(f: SwFlow, prev: SwFlow?, ghost i: nat)
      requires Valid() && i < |chains[Bucket(f.hash)]| && chains[Bucket(f.hash)][i] == f
      requires prev == if i == 0 then null else chains[Bucket(f.hash)][i - 1]
      modifies `count, `chains, heads, if prev == null then {} else {prev}
      ensures Valid()
      ensures var b := Bucket(f.hash); chains == old(chains)[b := Without(old(chains)[b], i)]
      ensures prev != null ==> prev != f && prev.Next(!nodeVer) == old(prev.Next(!nodeVer))
    {
      var b := Bucket(f.hash);
      ghost var was, hs, links := chains, heads[..], AllLinks(chains, nodeVer);
      DroppedOk(hs, was, links, b, i);
      TotalDrop(was, b, i);
      assert f.Next(nodeVer) == links[b][i] by {
        assert links[b] == Links(was[b], nodeVer);
      }
      count := count - 1;
      chains := was[b := Without(was[b], i)];
      Redirect(b, prev, f.Next(nodeVer));
      forall c, k | 0 <= c < |was| && 0 <= k < |was[c]| && was[c][k] != prev
        ensures was[c][k].Next(nodeVer) == links[c][k]
      {
        assert links[c] == old(Links(was[c], nodeVer));
      }
      LinksDropped(hs, was, links, b, i, prev, nodeVer);
    }

    /** What a reader finds who walks the heads and links as they are. */
    ghost function Answer(flows: set<SwFlow>, key: nat, hash: nat): SwFlow?
      requires heads.Length > 0
      reads `nodeVer, heads, flows
    {
      Follow(NextMap(flows, nodeVer), heads[Bucket(hash)], key, hash)
    }

    /** ovs_flow_tbl_lookup */
    method Lookup(key: nat, hash: nat) returns (f: SwFlow?)
      requires Valid()
      ensures f == FirstMatch(chains[Bucket(hash)], key, hash) == Answer(Members(chains), key, hash)
      ensures f != null ==> f in Members(chains) && f.hash == hash && f.key == key
      ensures f == null ==> forall g | g in Members(chains) :: !(g.hash == hash && g.key == key)
    {
      var b := Bucket(hash);
      f := heads[b];
      ghost var i := 0;
      while f != null
        invariant 0 <= i <= |chains[b]| && f == if i < |chains[b]| then chains[b][i] else null
        invariant forall k | 0 <= k < i :: !(chains[b][k].hash == hash && chains[b][k].key == key)
        decreases |chains[b]| - i
      {
        if f.hash == hash && f.key == key {
          FirstMatchSkips(chains[b], key, hash, i);
          break;
        }
        assert LinkAt(chains[b], Links(chains[b], nodeVer), i);
        f := f.Next(nodeVer);
        i := i + 1;
      }
      FirstMatchSkips(chains[b], key, hash, i);
      Answers(this, heads[..], chains, AllLinks(chains, nodeVer));
    }
  }

  /** Every lookup in `t` finds the first match in the bucket of `chains`. */
  ghost predicate AnswersAs(t: Table, chains: seq<seq<SwFlow>>)
    reads t`nodeVer, t.heads, Members(chains)
  {
    && t.heads.Length == |chains| && |chains| > 0
    && forall key, hash :: t.Answer(Members(chains), key, hash) == FirstMatch(chains[t.Bucket(hash)], key, hash)
  }

  /** A reader who sees the heads and links of some buckets gets the answers of these buckets. */
  lemma Answers(t: Table, hs: seq<SwFlow?>, chains: seq<seq<SwFlow>>, links: seq<seq<SwFlow?>>)
    requires t.BucketsOk(hs, chains, links) && ReaderSees(t, hs, chains, links)
    ensures AnswersAs(t, chains)
  {
    forall key, hash ensures t.Answer(Members(chains), key, hash) == FirstMatch(chains[t.Bucket(hash)], key, hash) {
      AnswerIs(t, hs, chains, links, key, hash);
    }
  }

  lemma AnswerIs(t: Table, hs: seq<SwFlow?>, chains: seq<seq<SwFlow>>, links: seq<seq<SwFlow?>>, key: nat, hash: nat)
    requires t.BucketsOk(hs, chains, links) && ReaderSees(t, hs, chains, links)
    ensures t.Answer(Members(chains), key, hash) == FirstMatch(chains[t.Bucket(hash)], key, hash)
  {
    var b := t.Bucket(hash);
    var chain, next := chains[b], NextMap(Members(chains), t.nodeVer);
    assert t.BucketOk(b, chain, links[b], hs[b]);
    assert links[b] == Links(chain, t.nodeVer);
    forall i: nat | i < |chain| ensures Leads(next, chain, i) {
      assert LinkAt(chain, links[b], i);
      assert chains[b][i] in Members(chains);
    }
    FollowFinds(next, chain, key, hash);
    assert t.heads[b] == t.heads[..][b];
  }

  /** What a reader of `t` walks: all bucket heads and links, as values. */
  ghost predicate ReaderSees(t: Table, heads: seq<SwFlow?>, chains: seq<seq<SwFlow>>, links: seq<seq<SwFlow?>>)
    reads t`nodeVer, t.heads, Members(chains)
  {
    t.heads[..] == heads && AllLinks(chains, t.nodeVer) == links
  }

  /** Members of the first `b` chains and of the first `i` flows of chain `b`. */
  ghost function Walked(chains: seq<seq<SwFlow>>, b: nat, i: nat): set<SwFlow>
    requires b < |chains| && i <= |chains[b]|
  {
    Members(chains[..b]) + set k | 0 <= k < i :: chains[b][k]
  }

  /** The first write of a copy.  A reader of the old table sees nothing of it. */
  method CopyLink(o: Table, n: Table, f: SwFlow, ghost hs: seq<SwFlow?>, ghost chains: seq<seq<SwFlow>>, ghost links: seq<seq<SwFlow?>>)
    requires n.Valid() && f !in Members(n.chains) && n.nodeVer != o.nodeVer
    requires o.BucketsOk(hs, chains, links) && ReaderSees(o, hs, chains, links)
    modifies f`next0, f`next1
    ensures n.Valid() && f.Next(n.nodeVer) == n.heads[n.Bucket(f.hash)]
    ensures ReaderSees(o, hs, chains, links) && AnswersAs(o, chains)
  {
    n.Prepare(f);
    forall c | 0 <= c < |chains| ensures Links(chains[c], o.nodeVer) == links[c] {
      assert forall i | 0 <= i < |chains[c]| :: chains[c][i].Next(o.nodeVer) == old(chains[c][i].Next(o.nodeVer));
      assert old(Links(chains[c], o.nodeVer)) == links[c];
    }
    Answers(o, hs, chains, links);
  }

  /** The second write of a copy. */
  method CopyPublish(o: Table, n: Table, f: SwFlow, ghost hs: seq<SwFlow?>, ghost chains: seq<seq<SwFlow>>, ghost links: seq<seq<SwFlow?>>)
    requires n.Valid() && f !in Members(n.chains) && f.Next(n.nodeVer) == n.heads[n.Bucket(f.hash)] && o != n && o.heads != n.heads
    requires o.BucketsOk(hs, chains, links) && ReaderSees(o, hs, chains, links)
    modifies n`count, n`chains, n.heads
    ensures n.Valid() && ReaderSees(o, hs, chains, links) && AnswersAs(o, chains)
    ensures Members(n.chains) == old(Members(n.chains)) + {f} && n.count == old(n.count) + 1
  {
    ghost var was := n.chains;
    ghost var b := n.Bucket(f.hash);
    n.Publish(f);
    TotalPush(was, b, f);
    MembersPush(was, b, f);
    Answers(o, hs, chains, links);
  }

  /** One step of flow_table_copy_flows.  After either of its writes a reader of the old table
      sees the same heads and links and gets the same answers. */
  method CopyOne(o: Table, n: Table, f: SwFlow, ghost hs: seq<SwFlow?>, ghost chains: seq<seq<SwFlow>>, ghost links: seq<seq<SwFlow?>>)
    requires n.Valid() && f !in Members(n.chains) && n.nodeVer != o.nodeVer && o != n && o.heads != n.heads
    requires o.BucketsOk(hs, chains, links) && ReaderSees(o, hs, chains, links)
    modifies n`count, n`chains, n.heads, f`next0, f`next1
    ensures n.Valid() && ReaderSees(o, hs, chains, links) && AnswersAs(o, chains)
    ensures Members(n.chains) == old(Members(n.chains)) + {f} && n.count == old(n.count) + 1
  {
    CopyLink(o, n, f, hs, chains, links);
    CopyPublish(o, n, f, hs, chains, links);
  }

  /** Distinct positions hold distinct flows. */
  lemma NotYetWalked(t: Table, heads: seq<SwFlow?>, chains: seq<seq<SwFlow>>, links: seq<seq<SwFlow?>>, b: nat, i: nat)
    requires t.BucketsOk(heads, chains, links) && b < |chains| && i < |chains[b]|
    ensures chains[b][i] !in Walked(chains, b, i)
    ensures Walked(chains, b, i + 1) == Walked(chains, b, i) + {chains[b][i]}
  {
    assert t.BucketOk(b, chains[b], links[b], heads[b]);
  }

  lemma WalkedBucket(chains: seq<seq<SwFlow>>, b: nat)
    requires b < |chains|
    ensures Walked(chains, b, |chains[b]|) == Members(chains[..b + 1])
    ensures Walked(chains, b, 0) == Members(chains[..b])
    ensures Total(chains[..b + 1]) == Total(chains[..b]) + |chains[b]|
  {
    var c := chains[..b + 1];
    assert c[..b] == chains[..b] && c[b] == chains[b];
    forall f | f in Members(c) ensures f in Walked(chains, b, |chains[b]|) {
      var d, i :| 0 <= d < |c| && 0 <= i < |c[d]| && c[d][i] == f;
      if d < b {
        assert chains[..b][d][i] == f;
      }
    }
    forall f | f in Walked(chains, b, |chains[b]|) ensures f in Members(c) {
      if f in Members(chains[..b]) {
        var d, i :| 0 <= d < |chains[..b]| && 0 <= i < |chains[..b][d]| && chains[..b][d][i] == f;
        assert c[d][i] == f;
      } else {
        var i :| 0 <= i < |chains[b]| && chains[b][i] == f;
        assert c[b][i] == f;
      }
    }
  }

  /** One bucket of flow_table_copy_flows, along the old table's links. */
  method CopyBucket(o: Table, n: Table, b: nat, ghost flows: set<SwFlow>)
    requires flows == Members(o.chains)
    requires o.Valid() && n.Valid() && n.nodeVer != o.nodeVer && o != n && o.heads != n.heads && b < o.heads.Length
    requires Members(n.chains) == Members(o.chains[..b]) && n.count == Total(o.chains[..b])
    modifies n`count, n`chains, n.heads, flows`next0, flows`next1
    ensures o.Valid() && ReaderSees(o, old(o.heads[..]), o.chains, old(AllLinks(o.chains, o.nodeVer)))
    ensures n.Valid() && Members(n.chains) == Members(o.chains[..b + 1]) && n.count == Total(o.chains[..b + 1])
  {
    ghost var chains, heads, links := o.chains, o.heads[..], AllLinks(o.chains, o.nodeVer);
    assert o.BucketsOk(heads, chains, links);
    WalkedBucket(chains, b);
    var f := o.heads[b];
    ghost var i := 0;
    while f != null
      invariant 0 <= i <= |chains[b]| && f == if i < |chains[b]| then chains[b][i] else null
      invariant ReaderSees(o, heads, chains, links) && n.Valid()
      invariant Members(n.chains) == Walked(chains, b, i) && n.count == Total(chains[..b]) + i
      decreases |chains[b]| - i
    {
      NotYetWalked(o, heads, chains, links, b, i);
      CopyOne(o, n, f, heads, chains, links);
      assert o.BucketOk(b, chains[b], links[b], heads[b]);
      assert LinkAt(chains[b], links[b], i);
      f := f.Next(o.nodeVer);
      i := i + 1;
    }
  }

  method CopyBuckets(o: Table, n: Table, ghost flows: set<SwFlow>)
    requires flows == Members(o.chains)
    requires o.Valid() && n.Valid() && Members(n.chains) == {} && n.count == 0 && n.nodeVer != o.nodeVer
    requires o != n && o.heads != n.heads
    modifies n`count, n`chains, n.heads, flows`next0, flows`next1
    ensures o.Valid() && ReaderSees(o, old(o.heads[..]), o.chains, old(AllLinks(o.chains, o.nodeVer)))
    ensures n.Valid() && Members(n.chains) == flows && n.count == o.count
  {
    ghost var heads, links := o.heads[..], AllLinks(o.chains, o.nodeVer);
    for b := 0 to o.heads.Length
      invariant o.Valid() && ReaderSees(o, heads, o.chains, links)
      invariant n.Valid() && Members(n.chains) == Members(o.chains[..b]) && n.count == Total(o.chains[..b])
    {
      CopyBucket(o, n, b, flows);
    }
    assert o.chains[..|o.chains|] == o.chains;
  }

  /** flow_table_copy_flows: the new table ends up with exactly the old table's flows, and a
      reader of the old table sees the same heads and links as before. */
  method CopyFlows(o: Table, n: Table, ghost flows: set<SwFlow>)
    requires flows == Members(o.chains)
    requires o.Valid() && n.Valid() && Members(n.chains) == {} && n.count == 0 && n.nodeVer != o.nodeVer
    requires o != n && o.heads != n.heads
    modifies o`keepFlows, n`count, n`chains, n.heads, flows`next0, flows`next1
    ensures o.Valid() && o.chains == old(o.chains) && o.keepFlows
    ensures ReaderSees(o, old(o.heads[..]), o.chains, old(AllLinks(o.chains, o.nodeVer)))
    ensures n.Valid() && Members(n.chains) == flows && n.count == o.count
  {
    CopyBuckets(o, n, flows);
    o.keepFlows := true;
  }

  /** The flows of one bucket, along the table's own links. */
  method FreeBucket(t: Table, b: nat, freed: seq<SwFlow>) returns (r: seq<SwFlow>)
    requires t.Valid() && b < t.heads.Length
    requires Distinct(freed) && Elements(freed) == Members(t.chains[..b])
    ensures Distinct(r) && Elements(r) == Members(t.chains[..b + 1])
  {
    ghost var chains, heads, links := t.chains, t.heads[..], AllLinks(t.chains, t.nodeVer);
    WalkedBucket(chains, b);
    assert t.BucketOk(b, chains[b], links[b], heads[b]);
    var f := t.heads[b];
    ghost var i := 0;
    r := freed;
    while f != null
      invariant 0 <= i <= |chains[b]| && f == if i < |chains[b]| then chains[b][i] else null
      invariant Distinct(r) && Elements(r) == Walked(chains, b, i)
      decreases |chains[b]| - i
    {
      NotYetWalked(t, heads, chains, links, b, i);
      assert LinkAt(chains[b], links[b], i);
      Appended(r, f);
      r := r + [f];
      f := f.Next(t.nodeVer);
      i := i + 1;
    }
  }

  /** ovs_flow_tbl_destroy: the flows it frees are all of the table's, each once, or none
      at all when a rehash has handed them on. */
  method Destroy(t: Table) returns (freed: seq<SwFlow>)
    requires t.Valid()
    ensures Distinct(freed) && Elements(freed) == if t.keepFlows then {} else Members(t.chains)
  {
    freed := [];
    if !t.keepFlows {
      for b := 0 to t.heads.Length
        invariant Distinct(freed) && Elements(freed) == Members(t.chains[..b])
      {
        freed := FreeBucket(t, b, freed);
      }
      assert t.chains[..|t.chains|] == t.chains;
    }
  }

  lemma Appended(s: seq<SwFlow>, f: SwFlow)
    requires Distinct(s) && f !in Elements(s)
    ensures Distinct(s + [f]) && Elements(s + [f]) == Elements(s) + {f}
  {
    var r := s + [f];
    assert r[|s|] == f;
    forall g | g in Elements(s) ensures g in Elements(r) {
      var i :| 0 <= i < |s| && s[i] == g;
      assert r[i] == g;
    }
  }

  predicate Distinct(s: seq<SwFlow>) {
    forall i, j | 0 <= i < j < |s| :: s[i] != s[j]
  }

  ghost function Elements(s: seq<SwFlow>): set<SwFlow> {
    set i | 0 <= i < |s| :: s[i]
  }

  /** ovs_flow_tbl_rehash and ovs_flow_tbl_expand: the new table uses the other link and
      holds the same flows, a reader of the old one sees no change, and destroying the old
      table will free nothing. */
  method Rehash(o: Table, nBuckets: nat, mix: nat -> nat, ghost flows: set<SwFlow>) returns (n: Table)
    requires o.Valid() && flows == Members(o.chains) && nBuckets > 0
    modifies o`keepFlows, flows`next0, flows`next1
    ensures n.Valid() && fresh(n) && fresh(n.heads) && n.nodeVer == !o.nodeVer && !n.keepFlows
    ensures Members(n.chains) == flows && n.count == o.count
    ensures o.Valid() && o.chains == old(o.chains) && o.keepFlows
    ensures ReaderSees(o, old(o.heads[..]), o.chains, old(AllLinks(o.chains, o.nodeVer)))
  {
    n := new Table(nBuckets, mix, !o.nodeVer);
    CopyFlows(o, n, flows);
  }

  /** No two flows have the same key. */
  ghost predicate DistinctKeys(flows: set<SwFlow>) {
    forall f, g | f in flows && g in flows && f.key == g.key && f.hash == g.hash :: f == g
  }

  /** Two tables with the same flows answer every lookup alike, whatever their sizes, seeds and
      link sets: so the table after a rehash answers as the one before. */
  lemma TablesAgree(o: Table, n: Table, key: nat, hash: nat)
    requires o.Valid() && n.Valid() && Members(o.chains) == Members(n.chains) && DistinctKeys(Members(o.chains))
    ensures FirstMatch(o.chains[o.Bucket(hash)], key, hash) == FirstMatch(n.chains[n.Bucket(hash)], key, hash)
  {
    var f, g := FirstMatch(o.chains[o.Bucket(hash)], key, hash), FirstMatch(n.chains[n.Bucket(hash)], key, hash);
    if f != null {
      InBucket(o, f, hash);
      InBucket(n, f, hash);
    }
    if g != null {
      InBucket(n, g, hash);
      InBucket(o, g, hash);
    }
  }

  /** A flow is in a table exactly if it is in the bucket it hashes to. */
  lemma InBucket(t: Table, f: SwFlow, hash: nat)
    requires t.Valid() && f.hash == hash
    ensures f in Members(t.chains) <==> f in t.chains[t.Bucket(hash)]
  {
    if f in Members(t.chains) {
      var b: nat, i: nat :| b < |t.chains| && i < |t.chains[b]| && t.chains[b][i] == f;
      assert t.BucketOk(b, t.chains[b], AllLinks(t.chains, t.nodeVer)[b], t.heads[..][b]);
    }
  }

  lemma MembersPush(chains: seq<seq<SwFlow>>, b: nat, f: SwFlow)
    requires b < |chains|
    ensures Members(chains[b := [f] + chains[b]]) == Members(chains) + {f}
  {
    var c := chains[b := [f] + chains[b]];
    assert c[b][0] == f;
    forall g | g in Members(chains) ensures g in Members(c) {
      var d, i :| 0 <= d < |chains| && 0 <= i < |chains[d]| && chains[d][i] == g;
      assert c[d][if d == b then i + 1 else i] == g;
    }
    forall g | g in Members(c) ensures g in Members(chains) + {f} {
      var d, i :| 0 <= d < |c| && 0 <= i < |c[d]| && c[d][i] == g;
      if d == b && i > 0 {
        assert chains[b][i - 1] == g;
      }
    }
  }

  lemma {:induction false} TotalPush(chains: seq<seq<SwFlow>>, b: nat, f: SwFlow)
    requires b < |chains|
    ensures Total(chains[b := [f] + chains[b]]) == Total(chains) + 1
  {
    var n := |chains| - 1;
    var c := chains[b := [f] + chains[b]];
    assert c[..n] == if b < n then chains[..n][b := [f] + chains[b]] else chains[..n];
    if b < n {
      TotalPush(chains[..n], b, f);
    }
  }

  lemma {:induction false} TotalDrop(chains: seq<seq<SwFlow>>, b: nat, i: nat)
    requires b < |chains| && i < |chains[b]|
    ensures Total(chains[b := Without(chains[b], i)]) == Total(chains) - 1
  {
    var n := |chains| - 1;
    var c := chains[b := Without(chains[b], i)];
    assert c[..n] == if b < n then chains[..n][b := Without(chains[b], i)] else chains[..n];
    if b < n {
      TotalDrop(chains[..n], b, i);
    }
  }

  lemma {:induction false} EmptyTotal(n: nat)
    ensures Total(seq(n, _ => [])) == 0
  {
    if n > 0 {
      EmptyTotal(n - 1);
      assert seq(n, _ => [])[..n - 1] == seq<seq<SwFlow>>(n - 1, _ => []);
    }
  }
}

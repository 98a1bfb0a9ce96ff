/** Highest-random-weight selection: `choose_stb_slave` of `lib/bond.c`, and `execute_hrw`
    and `execute_ab` of `lib/bundle.c`.  Hash values are arbitrary, so ties are possible. */
module Hrw {
  import opened Wrappers

  /** `r` is the first of the enabled candidates with the largest hash. */
  predicate Winner(enabled: seq<bool>, hash: seq<nat>, r: Option<nat>)
    requires |enabled| == |hash|
  {
    match r
    case None => forall j | 0 <= j < |enabled| :: !enabled[j]
    case Some(i) =>
      && i < |enabled| && enabled[i]
      && (forall j | 0 <= j < |enabled| && enabled[j] :: hash[j] <= hash[i])
      && (forall j | 0 <= j < i && enabled[j] :: hash[j] < hash[i])
  }

  /** choose_stb_slave, over the slaves in the order of the slave table. */
  method ChooseStable(enabled: seq<bool>, hash: seq<nat>) returns (best: Option<nat>)
    requires |enabled| == |hash|
    ensures Winner(enabled, hash, best)
  {
    best := None;
    var bestHash := 0;
    for i := 0 to |enabled|
      invariant Winner(enabled[..i], hash[..i], best)
      invariant best.Some? ==> bestHash == hash[best.value]
    {
      if enabled[i] && (best == None || hash[i] > bestHash) {
        best, bestHash := Some(i), hash[i];
      }
    }
    assert enabled[..|enabled|] == enabled && hash[..|hash|] == hash;
  }

  lemma WinnerUnique(enabled: seq<bool>, hash: seq<nat>, r: Option<nat>, q: Option<nat>)
    requires |enabled| == |hash| && Winner(enabled, hash, r) && Winner(enabled, hash, q)
    ensures r == q
  {
    if r.Some? && q.Some? {
      assert hash[r.value] == hash[q.value];
    }
  }

  /** When candidates are only added, a choice that was available before was made before. */
  lemma MinimalDisruption(before: seq<bool>, after: seq<bool>, hash: seq<nat>, r: Option<nat>, q: Option<nat>)
    requires |before| == |after| == |hash| && Winner(before, hash, r) && Winner(after, hash, q)
    requires forall j | 0 <= j < |before| && before[j] :: after[j]
    ensures q.Some? && before[q.value] ==> r == q
    ensures q.None? ==> r.None?
  {
    if q.Some? && before[q.value] {
      assert Winner(before, hash, q);
      WinnerUnique(before, hash, r, q);
    }
  }

  /** Disabling one candidate moves only what used it. */
  lemma DisableOne(enabled: seq<bool>, hash: seq<nat>, s: nat, r: Option<nat>, q: Option<nat>)
    requires |enabled| == |hash| && s < |enabled|
    requires Winner(enabled, hash, r) && Winner(enabled[s := false], hash, q)
    ensures r != Some(s) ==> q == r
    ensures q != Some(s)
  {
    MinimalDisruption(enabled[s := false], enabled, hash, q, r);
  }

  /** Enabling one candidate moves flows only onto it. */
  lemma EnableOne(enabled: seq<bool>, hash: seq<nat>, s: nat, r: Option<nat>, q: Option<nat>)
    requires |enabled| == |hash| && s < |enabled|
    requires Winner(enabled, hash, r) && Winner(enabled[s := true], hash, q)
    ensures q == r || q == Some(s)
  {
    MinimalDisruption(enabled, enabled[s := true], hash, r, q);
  }

  // ---- Bundles ---------------------------------------------------------------------------

  /** Which slaves of a bundle are usable when the ports in `up` are. */
  function Usable(slaves: seq<nat>, up: set<nat>): seq<bool> {
    seq(|slaves|, i requires 0 <= i < |slaves| => slaves[i] in up)
  }

  /** The port that stands for a choice; none when no slave is acceptable. */
  function PortOf(slaves: seq<nat>, r: Option<nat>): (p: Option<nat>)
    requires r.Some? ==> r.value < |slaves|
  {
    if r.None? then None else Some(slaves[r.value])
  }

  /** `port` is the port of the winner among the usable slaves. */
  ghost predicate Chosen(slaves: seq<nat>, up: set<nat>, weight: seq<nat>, port: Option<nat>)
    requires |weight| == |slaves|
  {
    exists r: Option<nat> | Winner(Usable(slaves, up), weight, r) :: port == PortOf(slaves, r)
  }

  /** execute_hrw: `weight` is the flow's hash combined with the slave's position. */
  method ExecuteHrw(slaves: seq<nat>, up: set<nat>, weight: seq<nat>) returns (port: Option<nat>)
    requires |weight| == |slaves|
    ensures Chosen(slaves, up, weight, port)
  {
    var b: int, bestHash := -1, 0;
    ghost var best: Option<nat> := None;
    ghost var usable := Usable(slaves, up);
    for i := 0 to |slaves|
      invariant -1 <= b < i && best == if b < 0 then None else Some(b)
      invariant Winner(usable[..i], weight[..i], best)
      invariant b >= 0 ==> bestHash == weight[b]
    {
      assert usable[i] == (slaves[i] in up);
      if slaves[i] in up && (b < 0 || weight[i] > bestHash) {
        b, bestHash, best := i, weight[i], Some(i);
      }
    }
    assert usable[..|slaves|] == usable && weight[..|slaves|] == weight;
    port := if b >= 0 then Some(slaves[b]) else None;
    assert port == PortOf(slaves, best);
  }

  /** execute_ab: the choice by position, which is the choice between equal weights. */
  method ExecuteAb(slaves: seq<nat>, up: set<nat>) returns (port: Option<nat>)
    ensures Chosen(slaves, up, seq(|slaves|, _ => 0), port)
  {
    ghost var usable, equal := Usable(slaves, up), seq(|slaves|, _ => 0);
    for i := 0 to |slaves|
      invariant forall j | 0 <= j < i :: slaves[j] !in up
    {
      if slaves[i] in up {
        assert Winner(usable, equal, Some(i)) && PortOf(slaves, Some(i)) == Some(slaves[i]);
        return Some(slaves[i]);
      }
    }
    assert Winner(usable, equal, None) && PortOf(slaves, None) == None;
    return None;
  }

  /** A port going up attracts flows to itself only, and a port going down moves only the
      flows that used it, even when a bundle lists the port several times. */
  lemma PortChange(slaves: seq<nat>, up: set<nat>, p: nat, weight: seq<nat>, without: Option<nat>, with: Option<nat>)
    requires |weight| == |slaves|
    requires Chosen(slaves, up - {p}, weight, without) && Chosen(slaves, up + {p}, weight, with)
    ensures with == without || with == Some(p)
    ensures without != Some(p)
  {
    var r: Option<nat> :| Winner(Usable(slaves, up - {p}), weight, r) && without == PortOf(slaves, r);
    var q: Option<nat> :| Winner(Usable(slaves, up + {p}), weight, q) && with == PortOf(slaves, q);
    MinimalDisruption(Usable(slaves, up - {p}), Usable(slaves, up + {p}), weight, r, q);
    if r.Some? {
      assert Usable(slaves, up - {p})[r.value];
    }
    if q.Some? {
      assert Usable(slaves, up + {p})[q.value];
    }
  }
}

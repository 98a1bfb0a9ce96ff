/** The load rebalancer of `lib/bond.c`: `bond_rebalance` and its helpers.  Slaves are
    numbered in the order the slave table is walked, hash entries by their index. */
module BondRebalance {
  import opened Wrappers

  const HASH_SIZE := 256
  const MIN_OVERLOAD := 100000

  // ---- Loads and lists -------------------------------------------------------------------

  /** Bytes of all entries that slave `s` owns. */
  function Owned(owner: seq<Option<nat>>, bytes: seq<nat>, s: nat): nat
    requires |owner| == |bytes|
  {
    if owner == [] then 0
    else
      var n := |owner| - 1;
      Owned(owner[..n], bytes[..n], s) + if owner[n] == Some(s) then bytes[n] else 0
  }

  lemma {:induction false} OwnedUpdate(owner: seq<Option<nat>>, bytes: seq<nat>, e: nat, o: Option<nat>, s: nat)
    requires |owner| == |bytes| && e < |owner|
    ensures Owned(owner[e := o], bytes, s) + (if owner[e] == Some(s) then bytes[e] else 0)
         == Owned(owner, bytes, s) + (if o == Some(s) then bytes[e] else 0)
  {
    var n := |owner| - 1;
    if e < n {
      OwnedUpdate(owner[..n], bytes[..n], e, o, s);
      assert owner[e := o][..n] == owner[..n][e := o];
    } else {
      assert owner[e := o][..n] == owner[..n];
    }
  }

  /** The entries of slave `s` that carried traffic, in index order. */
  function Listed(owner: seq<Option<nat>>, bytes: seq<nat>, s: nat): (r: seq<nat>)
    requires |owner| == |bytes|
    ensures forall i, j | 0 <= i < j < |r| :: r[i] < r[j]
    ensures forall i | 0 <= i < |r| :: r[i] < |owner| && owner[r[i]] == Some(s) && bytes[r[i]] > 0
    ensures forall e: nat | e < |owner| && owner[e] == Some(s) && bytes[e] > 0 :: e in r
  {
    if owner == [] then []
    else
      var n := |owner| - 1;
      Listed(owner[..n], bytes[..n], s) + if owner[n] == Some(s) && bytes[n] > 0 then [n] else []
  }

  function Sum(load: seq<nat>): nat {
    if load == [] then 0 else load[0] + Sum(load[1..])
  }

  lemma {:induction false} SumUpdate(load: seq<nat>, i: nat, v: nat)
    requires i < |load|
    ensures Sum(load[i := v]) + load[i] == Sum(load) + v
  {
    if i > 0 {
      SumUpdate(load[1..], i - 1, v);
      assert load[i := v][1..] == load[1..][i - 1 := v];
    } else {
      assert load[i := v][1..] == load[1..];
    }
  }

  function Lengths(lists: seq<seq<nat>>): nat {
    if lists == [] then 0 else |lists[0]| + Lengths(lists[1..])
  }

  lemma {:induction false} LengthsUpdate(lists: seq<seq<nat>>, i: nat, l: seq<nat>)
    requires i < |lists|
    ensures Lengths(lists[i := l]) + |lists[i]| == Lengths(lists) + |l|
  {
    if i > 0 {
      LengthsUpdate(lists[1..], i - 1, l);
      assert lists[i := l][1..] == lists[1..][i - 1 := l];
    } else {
      assert lists[i := l][1..] == lists[1..];
    }
  }

  // ---- The sorted list of slaves ---------------------------------------------------------

  predicate Slaves(n: nat, bals: seq<nat>) {
    && (forall i | 0 <= i < |bals| :: bals[i] < n)
    && (forall i, j | 0 <= i < j < |bals| :: bals[i] != bals[j])
  }

  predicate Descending(load: seq<nat>, bals: seq<nat>)
    requires Slaves(|load|, bals)
  {
    forall i, j | 0 <= i < j < |bals| :: load[bals[i]] >= load[bals[j]]
  }

  function InsertAt(bals: seq<nat>, k: nat, s: nat): seq<nat>
    requires k <= |bals|
  {
    bals[..k] + [s] + bals[k..]
  }

  /** `k` is where a slave with load `x` goes: before the first one that carries less. */
  predicate Position(load: seq<nat>, bals: seq<nat>, x: nat, k: nat)
    requires Slaves(|load|, bals)
  {
    && k <= |bals|
    && (forall j | 0 <= j < k :: x <= load[bals[j]])
    && (k < |bals| ==> load[bals[k]] < x)
  }

  /** insert_bal */
  method InsertBal(load: seq<nat>, bals: seq<nat>, s: nat) returns (r: seq<nat>, k: nat)
    requires s < |load| && Slaves(|load|, bals) && s !in bals
    ensures Position(load, bals, load[s], k) && r == InsertAt(bals, k, s)
    ensures Slaves(|load|, r)
    ensures Descending(load, bals) ==> Descending(load, r)
  {
    k := 0;
    while k < |bals| && load[s] <= load[bals[k]]
      invariant k <= |bals| && forall j | 0 <= j < k :: load[s] <= load[bals[j]]
    {
      k := k + 1;
    }
    r := InsertAt(bals, k, s);
  }

  function Remove(bals: seq<nat>, s: nat): seq<nat> {
    if bals == [] then [] else if bals[0] == s then bals[1..] else [bals[0]] + Remove(bals[1..], s)
  }

  lemma {:induction false} RemoveAt(bals: seq<nat>, k: nat)
    requires k < |bals| && bals[k] !in bals[..k]
    ensures Remove(bals, bals[k]) == bals[..k] + bals[k + 1..]
  {
    if k > 0 {
      assert bals[0] == bals[..k][0];
      RemoveAt(bals[1..], k - 1);
    }
  }

  /** Slave `x` may go anywhere in a sorted list where its neighbours allow it. */
  lemma InsertedSorted(load: seq<nat>, bals: seq<nat>, x: nat, k: nat)
    requires x < |load| && Slaves(|load|, bals) && x !in bals && Descending(load, bals) && k <= |bals|
    requires forall j | 0 <= j < |bals| :: if j < k then load[x] <= load[bals[j]] else load[bals[j]] <= load[x]
    ensures Slaves(|load|, InsertAt(bals, k, x)) && Descending(load, InsertAt(bals, k, x))
  {
  }

  /** The front slave is taken out and put in place while the last one is still where it
      was; without the last one the list is sorted. */
  lemma FirstPlaced(load: seq<nat>, middle: seq<nat>, first: nat, last: nat, k: nat)
    requires first < |load| && last < |load| && first != last && first !in middle && last !in middle
    requires Slaves(|load|, middle) && Descending(load, middle) && Slaves(|load|, middle + [last])
    requires Position(load, middle + [last], load[first], k)
    ensures var r := Remove(InsertAt(middle + [last], k, first), last);
            && r == InsertAt(middle, if k <= |middle| then k else |middle|, first)
            && Slaves(|load|, r) && Descending(load, r)
  {
    var l := InsertAt(middle + [last], k, first);
    var m := |middle|;
    var p := if k <= m then k else m;
    var q := if k <= m then m + 1 else m;
    assert l[q] == last && l[..q] + l[q + 1..] == InsertAt(middle, p, first);
    assert last !in l[..q];
    RemoveAt(l, q);
    forall j | 0 <= j < m ensures if j < p then load[first] <= load[middle[j]] else load[middle[j]] <= load[first] {
      assert (middle + [last])[j] == middle[j];
      if p <= j {
        assert (middle + [last])[k] == middle[p];
      }
    }
    InsertedSorted(load, middle, first, p);
  }

  /** reinsert_bal of the first slave and then of the last one, after both changed their
      load: the list is sorted again although it is not sorted in between. */
  method Resort(load: seq<nat>, bals: seq<nat>, first: nat, ghost middle: seq<nat>, last: nat)
    returns (r: seq<nat>, ghost p: nat, ghost q: nat)
    requires bals == [first] + middle + [last]
    requires first < |load| && last < |load| && first != last && first !in middle && last !in middle
    requires Slaves(|load|, middle) && Descending(load, middle) && Slaves(|load|, middle + [last])
    ensures Slaves(|load|, r) && Descending(load, r)
    ensures p <= |middle| && q <= |middle| + 1 && r == InsertAt(InsertAt(middle, p, first), q, last)
  {
    var l := Remove(bals, first);
    assert l == middle + [last];
    var k, k2;
    l, k := InsertBal(load, l, first);
    FirstPlaced(load, middle, first, last, k);
    p := if k <= |middle| then k else |middle|;
    l := Remove(l, last);
    r, k2 := InsertBal(load, l, last);
    q := k2;
  }

  // ---- Migrating entries -----------------------------------------------------------------

  /** Moving `delta` bytes lowers the ratio of the two loads by more than 0.1. */
  predicate Worth(from: nat, to: nat, delta: nat)
    requires delta <= from
  {
    to == 0 || from as real / to as real - (from - delta) as real / (to + delta) as real > 0.1
  }

  lemma CrossMultiply(a: real, b: real, c: real, d: real)
    requires b > 0.0 && d > 0.0
    ensures (a / b - c / d) * (b * d) == a * d - c * b
  {
    assert a / b * (b * d) == a * d by {
      assert a / b * b == a;
      assert a / b * (b * d) == a / b * b * d;
    }
    assert c / d * (b * d) == c * b by {
      assert c / d * d == c;
      assert c / d * (b * d) == c / d * d * b;
    }
  }

  lemma ScaleGreater(x: real, y: real, k: real)
    requires k > 0.0
    ensures x > y <==> x * k > y * k
  {
    if x > y {
      assert (x - y) * k > 0.0;
    } else {
      assert (y - x) * k >= 0.0;
    }
  }

  /** The ratio test without its ratios: moving `delta` bytes to a slave that carries some is
      worth it exactly when ten times `delta` over both loads exceeds the product of the
      receiver's loads before and after. */
  lemma WorthInIntegers(from: nat, to: nat, delta: nat)
    requires delta <= from && to > 0
    ensures Worth(from, to, delta) <==> 10 * delta * (from + to) > to * (to + delta)
  {
    var f, t, d := from as real, to as real, delta as real;
    var x := f / t - (f - d) / (t + d);
    var k := t * (t + d);
    assert (from - delta) as real == f - d && (to + delta) as real == t + d;
    assert k > 0.0;
    CrossMultiply(f, t, f - d, t + d);
    assert f * (t + d) - (f - d) * t == d * (f + t);
    ScaleGreater(x, 0.1, k);
    assert Worth(from, to, delta) <==> d * (f + t) > 0.1 * k;
    assert d * (f + t) > 0.1 * k <==> 10.0 * (d * (f + t)) > k;
    InReals(from, to, delta);
  }

  lemma InReals(from: nat, to: nat, delta: nat)
    ensures var (f, t, d) := (from as real, to as real, delta as real);
            10.0 * (d * (f + t)) > t * (t + d) <==> 10 * delta * (from + to) > to * (to + delta)
  {
    var f, t, d := from as real, to as real, delta as real;
    ProductAsReal(delta, from + to);
    ProductAsReal(to, to + delta);
    assert (from + to) as real == f + t && (to + delta) as real == t + d;
    assert (10 * (delta * (from + to))) as real == 10.0 * (d * (f + t));
    assert 10 * delta * (from + to) == 10 * (delta * (from + to));
  }

  lemma {:induction false} ProductAsReal(a: nat, b: nat)
    ensures (a * b) as real == a as real * b as real
  {
    if a > 0 {
      ProductAsReal(a - 1, b);
      assert a * b == (a - 1) * b + b;
      assert a as real * b as real == (a - 1) as real * b as real + b as real;
    }
  }

  /** A slave without load takes anything, one with load never takes zero bytes, and whatever
      is worth moving stays so when it grows. */
  lemma WorthGrows(from: nat, to: nat, delta: nat, more: nat)
    requires delta <= more <= from
    ensures to == 0 ==> Worth(from, to, delta)
    ensures to > 0 ==> !Worth(from, to, 0)
    ensures Worth(from, to, delta) ==> Worth(from, to, more)
  {
    if to > 0 {
      WorthInIntegers(from, to, 0);
      assert 10 * 0 * (from + to) == 0 && to * (to + 0) > 0;
      WorthInIntegers(from, to, delta);
      WorthInIntegers(from, to, more);
      if Worth(from, to, delta) {
        WorthMonotone(from, to, delta, more - delta);
      }
    }
  }

  lemma WorthMonotone(from: nat, to: nat, delta: nat, extra: nat)
    requires 10 * delta * (from + to) > to * (to + delta)
    ensures 10 * (delta + extra) * (from + to) > to * (to + delta + extra)
  {
    assert 10 * (delta + extra) * (from + to) == 10 * delta * (from + to) + 10 * extra * (from + to);
    assert to * (to + delta + extra) == to * (to + delta) + to * extra;
    assert 10 * extra * (from + to) >= extra * to;
  }

  predicate AllFit(list: seq<nat>, bytes: seq<nat>, from: nat) {
    forall i | 0 <= i < |list| :: list[i] < |bytes| && bytes[list[i]] <= from
  }

  /** choose_entry_to_migrate: the first entry of `list` worth moving, unless it is alone. */
  method ChooseEntry(list: seq<nat>, bytes: seq<nat>, from: nat, to: nat) returns (r: Option<nat>)
    requires AllFit(list, bytes, from)
    ensures r.Some? ==> |list| >= 2 && r.value < |list| && Worth(from, to, bytes[list[r.value]])
    ensures r.Some? ==> forall i | 0 <= i < r.value :: !Worth(from, to, bytes[list[i]])
    ensures r.None? ==> |list| <= 1 || forall i | 0 <= i < |list| :: !Worth(from, to, bytes[list[i]])
  {
    if |list| <= 1 {
      return None;
    }
    for i := 0 to |list|
      invariant forall j | 0 <= j < i :: !Worth(from, to, bytes[list[j]])
    {
      if Worth(from, to, bytes[list[i]]) {
        return Some(i);
      }
    }
    return None;
  }

  /** Every slave's load is the sum over the entries it owns. */
  predicate Accounts(owner: seq<Option<nat>>, bytes: seq<nat>, load: seq<nat>) {
    && |owner| == |bytes|
    && (forall e | 0 <= e < |owner| && owner[e].Some? :: owner[e].value < |load|)
    && (forall s: nat | s < |load| :: load[s] == Owned(owner, bytes, s))
  }

  lemma OwnerFits(owner: seq<Option<nat>>, bytes: seq<nat>, load: seq<nat>, e: nat)
    requires Accounts(owner, bytes, load) && e < |owner| && owner[e].Some?
    ensures bytes[e] <= load[owner[e].value]
  {
    OwnedUpdate(owner, bytes, e, None, owner[e].value);
  }

  /** bond_shift_load keeps the accounts and the total. */
  lemma Shifted(owner: seq<Option<nat>>, bytes: seq<nat>, load: seq<nat>, e: nat, from: nat, to: nat)
    requires Accounts(owner, bytes, load) && e < |owner| && owner[e] == Some(from) && from != to && to < |load|
    ensures bytes[e] <= load[from]
    ensures var l := load[from := load[from] - bytes[e]][to := load[to] + bytes[e]];
            Accounts(owner[e := Some(to)], bytes, l) && Sum(l) == Sum(load)
  {
    OwnerFits(owner, bytes, load, e);
    var l := load[from := load[from] - bytes[e]][to := load[to] + bytes[e]];
    forall s: nat | s < |load| ensures l[s] == Owned(owner[e := Some(to)], bytes, s) {
      OwnedUpdate(owner, bytes, e, Some(to), s);
    }
    SumUpdate(load, from, load[from] - bytes[e]);
    SumUpdate(load[from := load[from] - bytes[e]], to, load[to] + bytes[e]);
  }

  /** The listed entries carry traffic, belong to the slave that lists them, and are listed once. */
  predicate ListsOk(owner: seq<Option<nat>>, bytes: seq<nat>, lists: seq<seq<nat>>)
    requires |owner| == |bytes|
  {
    && (forall s, i | 0 <= s < |lists| && 0 <= i < |lists[s]| ::
          lists[s][i] < |owner| && owner[lists[s][i]] == Some(s) && bytes[lists[s][i]] > 0)
    && (forall s, i, j | 0 <= s < |lists| && 0 <= i < j < |lists[s]| :: lists[s][i] != lists[s][j])
  }

  lemma Unlisted(owner: seq<Option<nat>>, bytes: seq<nat>, lists: seq<seq<nat>>, from: nat, i: nat, to: nat)
    requires |owner| == |bytes| && ListsOk(owner, bytes, lists)
    requires from < |lists| && i < |lists[from]|
    ensures ListsOk(owner[lists[from][i] := Some(to)], bytes, lists[from := lists[from][..i] + lists[from][i + 1..]])
  {
    var e, n := lists[from][i], lists[from := lists[from][..i] + lists[from][i + 1..]];
    forall s, k | 0 <= s < |n| && 0 <= k < |n[s]|
      ensures n[s][k] < |owner| && owner[n[s][k]] == Some(s) && bytes[n[s][k]] > 0 && n[s][k] != e
    {
      var j := if s == from && k >= i then k + 1 else k;
      assert n[s][k] == lists[s][j];
    }
  }

  // ---- What a run of decisions means -----------------------------------------------------

  /** One round of the loop: an entry goes from the most to the least loaded slave, or the
      most loaded slave is taken out of consideration. */
  datatype Event = Shift(entry: nat, from: nat, to: nat) | Drop(from: nat, to: nat)

  /** The assignment, the lists of entries that may still move, and the slaves considered. */
  datatype Snapshot = Snapshot(owner: seq<Option<nat>>, lists: seq<seq<nat>>, left: set<nat>)

  function Next(s: Snapshot, e: Event): Snapshot {
    match e
    case Shift(entry, from, to) =>
      if entry < |s.owner| && from < |s.lists| then
        Snapshot(s.owner[entry := Some(to)], s.lists[from := Remove(s.lists[from], entry)], s.left)
      else s
    case Drop(from, _) => s.(left := s.left - {from})
  }

  /** The state after a log of decisions. */
  function Replay(s: Snapshot, log: seq<Event>): Snapshot {
    if log == [] then s else Next(Replay(s, log[..|log| - 1]), log[|log| - 1])
  }

  /** `to` is far enough below `from` for the loop to go on. */
  predicate Gap(from: nat, to: nat) {
    from >= to + to / 32 && from >= to + MIN_OVERLOAD
  }

  /** The threshold without its division: at least 100000 bytes and a 32nd of the lower load. */
  lemma GapInIntegers(from: nat, to: nat)
    ensures Gap(from, to) <==> from - to >= 100000 && 32 * (from - to) > to - 32
  {
  }

  /** `i` is the first entry of the list worth moving. */
  predicate FirstWorth(list: seq<nat>, bytes: seq<nat>, from: nat, to: nat, i: nat) {
    && AllFit(list, bytes, from) && |list| >= 2 && i < |list| && Worth(from, to, bytes[list[i]])
    && forall j | 0 <= j < i :: !Worth(from, to, bytes[list[j]])
  }

  /** At most one entry is listed, or none of them is worth moving. */
  predicate Stuck(list: seq<nat>, bytes: seq<nat>, from: nat, to: nat) {
    AllFit(list, bytes, from) && (|list| <= 1 || forall i | 0 <= i < |list| :: !Worth(from, to, bytes[list[i]]))
  }

  /** The two slaves of a decision are the most and the least loaded ones considered, their
      loads (the sums of their entries at that point) are over both thresholds apart, and the
      decision is the one choose_entry_to_migrate calls for. */
  ghost predicate Decision(bytes: seq<nat>, s: Snapshot, e: Event)
    requires |s.owner| == |bytes|
  {
    && e.from in s.left && e.to in s.left && e.from != e.to && e.from < |s.lists|
    && (forall x | x in s.left :: Owned(s.owner, bytes, e.to) <= Owned(s.owner, bytes, x) <= Owned(s.owner, bytes, e.from))
    && Gap(Owned(s.owner, bytes, e.from), Owned(s.owner, bytes, e.to))
    && match e
       case Shift(entry, from, to) =>
         exists i: nat | i < |s.lists[from]| :: entry == s.lists[from][i]
           && FirstWorth(s.lists[from], bytes, Owned(s.owner, bytes, from), Owned(s.owner, bytes, to), i)
       case Drop(from, to) =>
         Stuck(s.lists[from], bytes, Owned(s.owner, bytes, from), Owned(s.owner, bytes, to))
  }

  lemma {:induction false} ReplaySizes(s: Snapshot, log: seq<Event>)
    ensures |Replay(s, log).owner| == |s.owner| && |Replay(s, log).lists| == |s.lists|
    ensures Replay(s, log).left <= s.left
  {
    if log != [] {
      ReplaySizes(s, log[..|log| - 1]);
    }
  }

  ghost predicate DecisionAt(bytes: seq<nat>, s: Snapshot, log: seq<Event>, k: nat)
    requires |s.owner| == |bytes| && k < |log|
  {
    ReplaySizes(s, log[..k]);
    Decision(bytes, Replay(s, log[..k]), log[k])
  }

  /** Every entry of the log is the right decision in the state the earlier ones lead to. */
  ghost predicate Decisions(bytes: seq<nat>, s: Snapshot, log: seq<Event>)
    requires |s.owner| == |bytes|
  {
    forall k: nat | k < |log| :: DecisionAt(bytes, s, log, k)
  }

  lemma Decided(bytes: seq<nat>, s: Snapshot, log: seq<Event>, e: Event)
    requires |s.owner| == |bytes| && Decisions(bytes, s, log)
    requires |Replay(s, log).owner| == |bytes| && Decision(bytes, Replay(s, log), e)
    ensures Decisions(bytes, s, log + [e]) && Replay(s, log + [e]) == Next(Replay(s, log), e)
  {
    var n := log + [e];
    assert n[..|log|] == log;
    forall k: nat | k < |n| ensures DecisionAt(bytes, s, n, k) {
      assert n[..k] == log[..k];
      if k < |log| {
        assert DecisionAt(bytes, s, log, k);
      } else {
        assert log[..k] == log;
      }
    }
  }

  // ---- Facts about every log of decisions ------------------------------------------------

  ghost predicate SnapshotOk(bytes: seq<nat>, s: Snapshot) {
    |s.owner| == |bytes| && ListsOk(s.owner, bytes, s.lists)
  }

  predicate InSomeList(lists: seq<seq<nat>>, e: nat) {
    exists x: nat | x < |lists| :: e in lists[x]
  }

  lemma {:induction false} RemoveHas(l: seq<nat>, e: nat, x: nat)
    ensures x in Remove(l, e) ==> x in l
  {
    if l != [] && l[0] != e {
      RemoveHas(l[1..], e, x);
    }
  }

  lemma NextOk(bytes: seq<nat>, s: Snapshot, e: Event)
    requires SnapshotOk(bytes, s) && Decision(bytes, s, e)
    ensures SnapshotOk(bytes, Next(s, e))
    ensures e.Shift? ==> e.entry < |s.owner| && s.owner[e.entry] == Some(e.from)
  {
    if e.Shift? {
      var l := s.lists[e.from];
      var i: nat :| i < |l| && e.entry == l[i] && FirstWorth(l, bytes, Owned(s.owner, bytes, e.from), Owned(s.owner, bytes, e.to), i);
      RemoveAt(l, i);
      Unlisted(s.owner, bytes, s.lists, e.from, i, e.to);
    }
  }

  /** An entry is only in the list of the slave that owns it. */
  lemma InOwnList(bytes: seq<nat>, s: Snapshot, x: nat, y: nat)
    requires SnapshotOk(bytes, s) && y < |s.lists| && x in s.lists[y]
    ensures x < |s.owner| && s.owner[x] == Some(y)
  {
    var k :| 0 <= k < |s.lists[y]| && s.lists[y][k] == x;
  }

  /** A shift leaves its entry in no list, and no list gains an entry. */
  lemma ShiftUnlists(bytes: seq<nat>, s: Snapshot, e: Event, x: nat)
    requires SnapshotOk(bytes, s) && Decision(bytes, s, e)
    ensures SnapshotOk(bytes, Next(s, e))
    ensures InSomeList(Next(s, e).lists, x) ==> InSomeList(s.lists, x) && (e.Shift? ==> x != e.entry)
  {
    NextOk(bytes, s, e);
    var n := Next(s, e);
    if e.Shift? && InSomeList(n.lists, x) {
      var y: nat :| y < |n.lists| && x in n.lists[y];
      RemoveHas(s.lists[e.from], e.entry, x);
      assert x in s.lists[y];
      InOwnList(bytes, s, x, y);
      InOwnList(bytes, n, x, y);
    }
  }

  lemma {:induction false} ListsShrink(bytes: seq<nat>, s: Snapshot, log: seq<Event>, k: nat, x: nat)
    requires SnapshotOk(bytes, s) && Decisions(bytes, s, log) && k <= |log|
    ensures SnapshotOk(bytes, Replay(s, log))
    ensures InSomeList(Replay(s, log).lists, x) ==> InSomeList(Replay(s, log[..k]).lists, x)
    decreases |log|
  {
    if log == [] || k == |log| {
      assert log[..k] == log;
    }
    if log != [] {
      var n := |log| - 1;
      assert DecisionAt(bytes, s, log, n);
      DecisionsPrefix(bytes, s, log, n);
      ListsShrink(bytes, s, log[..n], if k <= n then k else n, x);
      if k <= n {
        assert log[..n][..k] == log[..k];
      }
      ShiftUnlists(bytes, Replay(s, log[..n]), log[n], x);
    }
  }

  lemma DecisionsPrefix(bytes: seq<nat>, s: Snapshot, log: seq<Event>, n: nat)
    requires |s.owner| == |bytes| && Decisions(bytes, s, log) && n <= |log|
    ensures Decisions(bytes, s, log[..n])
  {
    forall k: nat | k < n ensures DecisionAt(bytes, s, log[..n], k) {
      assert log[..n][..k] == log[..k];
      assert DecisionAt(bytes, s, log, k);
    }
  }

  /** No entry moves twice. */
  lemma NoEntryMovesTwice(bytes: seq<nat>, s: Snapshot, log: seq<Event>, k: nat, l: nat)
    requires SnapshotOk(bytes, s) && Decisions(bytes, s, log) && k < l < |log| && log[k].Shift? && log[l].Shift?
    ensures log[k].entry != log[l].entry
  {
    var e := log[l].entry;
    DecisionsPrefix(bytes, s, log, l);
    DecisionsPrefix(bytes, s, log, k);
    ListsShrink(bytes, s, log[..k], 0, e);
    ListsShrink(bytes, s, log[..l], k + 1, e);
    assert DecisionAt(bytes, s, log, k) && DecisionAt(bytes, s, log, l);
    assert log[..l][..k + 1] == log[..k + 1] && log[..k + 1][..k] == log[..k];
    ShiftUnlists(bytes, Replay(s, log[..k]), log[k], e);
    var at := Replay(s, log[..l]);
    assert e in at.lists[log[l].from];
    assert InSomeList(at.lists, e);
  }

  /** The loads of two slaves after a shift between them. */
  lemma ShiftMovesLoad(bytes: seq<nat>, s: Snapshot, e: Event)
    requires SnapshotOk(bytes, s) && Decision(bytes, s, e) && e.Shift?
    ensures e.entry < |bytes| && bytes[e.entry] > 0 && |Next(s, e).owner| == |bytes|
    ensures Owned(Next(s, e).owner, bytes, e.from) + bytes[e.entry] == Owned(s.owner, bytes, e.from)
    ensures Owned(Next(s, e).owner, bytes, e.to) == Owned(s.owner, bytes, e.to) + bytes[e.entry]
    ensures Worth(Owned(s.owner, bytes, e.from), Owned(s.owner, bytes, e.to), bytes[e.entry])
  {
    var l := s.lists[e.from];
    var i: nat :| i < |l| && e.entry == l[i] && FirstWorth(l, bytes, Owned(s.owner, bytes, e.from), Owned(s.owner, bytes, e.to), i);
    assert s.owner[s.lists[e.from][i]] == Some(e.from) && bytes[s.lists[e.from][i]] > 0;
    OwnedUpdate(s.owner, bytes, e.entry, Some(e.to), e.from);
    OwnedUpdate(s.owner, bytes, e.entry, Some(e.to), e.to);
  }

  /** The load of slave `x` after the first `k` decisions. */
  ghost function LoadAt(bytes: seq<nat>, s: Snapshot, log: seq<Event>, k: nat, x: nat): nat
    requires |s.owner| == |bytes| && k <= |log|
  {
    ReplaySizes(s, log[..k]);
    Owned(Replay(s, log[..k]).owner, bytes, x)
  }

  /** From loads f, t to f', t' the ratio falls by more than a tenth: f / t - f' / t' > 1 / 10. */
  predicate RatioFalls(f: nat, t: nat, f': nat, t': nat) {
    f' < f && t < t' && f + t == f' + t' && (t > 0 ==> 10 * (f * t' - f' * t) > t * t')
  }

  lemma WorthFalls(f: nat, t: nat, d: nat)
    requires 0 < d <= f && Worth(f, t, d)
    ensures RatioFalls(f, t, f - d, t + d)
  {
    if t > 0 {
      WorthInIntegers(f, t, d);
      assert f * (t + d) - (f - d) * t == d * (f + t);
    }
  }

  /** Every shift lowers the ratio of the two loads by more than a tenth, if there is one. */
  lemma ShiftLowersRatio(bytes: seq<nat>, s: Snapshot, log: seq<Event>, k: nat)
    requires SnapshotOk(bytes, s) && Decisions(bytes, s, log) && k < |log| && log[k].Shift?
    ensures RatioFalls(LoadAt(bytes, s, log, k, log[k].from), LoadAt(bytes, s, log, k, log[k].to),
                       LoadAt(bytes, s, log, k + 1, log[k].from), LoadAt(bytes, s, log, k + 1, log[k].to))
  {
    assert DecisionAt(bytes, s, log, k);
    assert log[..k + 1][..k] == log[..k];
    DecisionsPrefix(bytes, s, log, k);
    ListsShrink(bytes, s, log[..k], 0, 0);
    var at := Replay(s, log[..k]);
    ShiftMovesLoad(bytes, at, log[k]);
    WorthFalls(Owned(at.owner, bytes, log[k].from), Owned(at.owner, bytes, log[k].to), bytes[log[k].entry]);
  }

  /** A decision leaves load and list of every slave not considered as they are. */
  lemma OutsideUntouched(bytes: seq<nat>, s: Snapshot, e: Event, x: nat)
    requires SnapshotOk(bytes, s) && Decision(bytes, s, e) && x !in s.left && x < |s.lists|
    ensures var n := Next(s, e);
            |n.owner| == |bytes| && Owned(n.owner, bytes, x) == Owned(s.owner, bytes, x) && |n.lists| == |s.lists| && n.lists[x] == s.lists[x]
  {
    if e.Shift? {
      var l := s.lists[e.from];
      var i: nat :| i < |l| && e.entry == l[i] && FirstWorth(l, bytes, Owned(s.owner, bytes, e.from), Owned(s.owner, bytes, e.to), i);
      assert s.owner[s.lists[e.from][i]] == Some(e.from);
      OwnedUpdate(s.owner, bytes, e.entry, Some(e.to), x);
    }
  }

  /** A dropped slave keeps its load and its list to the end, so what made it useless to
      consider it is still true of it then. */
  lemma {:induction false} DropStays(bytes: seq<nat>, s: Snapshot, log: seq<Event>, k: nat)
    requires SnapshotOk(bytes, s) && Decisions(bytes, s, log) && k < |log| && log[k].Drop?
    ensures var (x, at, end) := (log[k].from, Replay(s, log[..k]), Replay(s, log));
            && |at.owner| == |end.owner| == |bytes| && x < |at.lists| == |end.lists| && x !in end.left
            && Owned(end.owner, bytes, x) == Owned(at.owner, bytes, x) && end.lists[x] == at.lists[x]
            && Stuck(end.lists[x], bytes, Owned(end.owner, bytes, x), Owned(at.owner, bytes, log[k].to))
            && Gap(Owned(end.owner, bytes, x), Owned(at.owner, bytes, log[k].to))
    decreases |log|
  {
    var n := |log| - 1;
    ReplaySizes(s, log);
    ReplaySizes(s, log[..k]);
    assert DecisionAt(bytes, s, log, k) && DecisionAt(bytes, s, log, n);
    DecisionsPrefix(bytes, s, log, n);
    ListsShrink(bytes, s, log[..n], 0, 0);
    if k < n {
      assert log[..n][..k] == log[..k];
      DropStays(bytes, s, log[..n], k);
      OutsideUntouched(bytes, Replay(s, log[..n]), log[n], log[k].from);
    }
  }

  // ---- bond_rebalance --------------------------------------------------------------------

  predicate AllEnabled(enabled: seq<bool>, bals: seq<nat>) {
    forall i | 0 <= i < |bals| :: bals[i] < |enabled| && enabled[bals[i]]
  }

  /** What the loop keeps about the loads and the lists. */
  predicate Consistent(owner: seq<Option<nat>>, bytes: seq<nat>, enabled: seq<bool>, load: seq<nat>, lists: seq<seq<nat>>) {
    |load| == |lists| == |enabled| && Accounts(owner, bytes, load) && ListsOk(owner, bytes, lists)
  }

  predicate Sorted(load: seq<nat>, enabled: seq<bool>, bals: seq<nat>) {
    Slaves(|load|, bals) && Descending(load, bals) && AllEnabled(enabled, bals)
  }

  /** No two slaves left differ by as much as the threshold of the least loaded one. */
  predicate Settled(load: seq<nat>, bals: seq<nat>)
    requires Slaves(|load|, bals)
  {
    || |bals| <= 1
    || forall i, j | 0 <= i < |bals| && 0 <= j < |bals| ::
         load[bals[i]] < load[bals[j]] + load[bals[|bals| - 1]] / 32 || load[bals[i]] < load[bals[j]] + MIN_OVERLOAD
  }

  predicate Collected(owner: seq<Option<nat>>, bytes: seq<nat>, load: seq<nat>, lists: seq<seq<nat>>) {
    && |owner| == |bytes| && |load| == |lists|
    && forall s: nat | s < |load| :: load[s] == Owned(owner, bytes, s) && lists[s] == Listed(owner, bytes, s)
  }

  lemma CollectOne(owner: seq<Option<nat>>, bytes: seq<nat>, load: seq<nat>, lists: seq<seq<nat>>, e: nat)
    requires e < |owner| == |bytes| && Collected(owner[..e], bytes[..e], load, lists)
    requires owner[e].Some? ==> owner[e].value < |load|
    ensures var (l, m) := if owner[e].Some? && bytes[e] > 0 then
                var s := owner[e].value; (load[s := load[s] + bytes[e]], lists[s := lists[s] + [e]])
              else (load, lists);
            Collected(owner[..e + 1], bytes[..e + 1], l, m)
  {
    assert owner[..e + 1][..e] == owner[..e] && bytes[..e + 1][..e] == bytes[..e];
  }

  class Bond {
    const interval: nat
    const adaptive: bool  // the balancing mode is SLB or TCP
    var nextRebalance: int
    var enabled: seq<bool>
    var owner: seq<Option<nat>>
    var bytes: seq<nat>
    var load: seq<nat>
    var lists: seq<seq<nat>>

    predicate Valid()
      reads this
    {
      |owner| == |bytes| == HASH_SIZE && forall e | 0 <= e < HASH_SIZE && owner[e].Some? :: owner[e].value < |enabled|
    }

    /** The first loops of bond_rebalance: each slave's load and list. */
    method Collect()
      requires Valid()
      modifies `load, `lists
      ensures |load| == |lists| == |enabled| && Accounts(owner, bytes, load)
      ensures forall s: nat | s < |lists| :: lists[s] == Listed(owner, bytes, s)
    {
      load, lists := seq(|enabled|, _ => 0), seq(|enabled|, _ => []);
      for e := 0 to HASH_SIZE
        invariant |load| == |enabled| && Collected(owner[..e], bytes[..e], load, lists)
      {
        CollectOne(owner, bytes, load, lists, e);
        if owner[e].Some? && bytes[e] > 0 {
          var s := owner[e].value;
          load := load[s := load[s] + bytes[e]];
          lists := lists[s := lists[s] + [e]];
        }
      }
      assert owner[..HASH_SIZE] == owner && bytes[..HASH_SIZE] == bytes;
    }

    /** The enabled slaves in descending order of load. */
    method SortSlaves() returns (bals: seq<nat>)
      requires |load| == |enabled|
      ensures Sorted(load, enabled, bals)
      ensures forall s: nat | s < |enabled| && enabled[s] :: s in bals
    {
      bals := [];
      for s := 0 to |enabled|
        invariant Sorted(load, enabled, bals)
        invariant forall i | 0 <= i < |bals| :: bals[i] < s
        invariant forall t: nat | t < s && enabled[t] :: t in bals
      {
        if enabled[s] {
          var k;
          ghost var was := bals;
          bals, k := InsertBal(load, bals, s);
          Inserted(was, k, s);
        }
      }
    }

    /** bond_shift_load, and the removal of the entry from its list. */
    method Migrate(from: nat, i: nat, to: nat)
      requires Consistent(owner, bytes, enabled, load, lists)
      requires from < |lists| && i < |lists[from]| && to < |load| && from != to
      modifies `owner, `load, `lists
      ensures Consistent(owner, bytes, enabled, load, lists)
      ensures var e := old(lists)[from][i];
              owner == old(owner)[e := Some(to)] && lists == old(lists)[from := Remove(old(lists)[from], e)]
      ensures |load| == old(|load|) && forall s | 0 <= s < |load| && s != from && s != to :: load[s] == old(load)[s]
      ensures Sum(load) == old(Sum(load)) && Lengths(lists) < old(Lengths(lists))
    {
      var e := lists[from][i];
      Shifted(owner, bytes, load, e, from, to);
      Unlisted(owner, bytes, lists, from, i, to);
      RemoveAt(lists[from], i);
      LengthsUpdate(lists, from, lists[from][..i] + lists[from][i + 1..]);
      load := load[from := load[from] - bytes[e]][to := load[to] + bytes[e]];
      owner := owner[e := Some(to)];
      lists := lists[from := lists[from][..i] + lists[from][i + 1..]];
    }

    /** A migration from the first slave of `bals` to the last, and the re-sorting after it. */
    method MigrateAndSort(i: nat, bals: seq<nat>) returns (r: seq<nat>)
      requires Consistent(owner, bytes, enabled, load, lists)
      requires Sorted(load, enabled, bals) && |bals| >= 2 && i < |lists[bals[0]]|
      modifies `owner, `load, `lists
      ensures Consistent(owner, bytes, enabled, load, lists)
      ensures var (e, from, to) := (old(lists)[bals[0]][i], bals[0], bals[|bals| - 1]);
              owner == old(owner)[e := Some(to)] && lists == old(lists)[from := Remove(old(lists)[from], e)]
      ensures Sorted(load, enabled, r) && |r| == |bals| && Elements(r) == Elements(bals)
      ensures Sum(load) == old(Sum(load)) && Lengths(lists) < old(Lengths(lists))
    {
      var from, to := bals[0], bals[|bals| - 1];
      ghost var middle := bals[1..|bals| - 1];
      assert bals == [from] + middle + [to] && from !in middle && to !in middle;
      Migrate(from, i, to);
      assert Slaves(|load|, middle) && Descending(load, middle) && Slaves(|load|, middle + [to]);
      ghost var p, q;
      r, p, q := Resort(load, bals, from, middle, to);
      SameElements(bals, from, middle, to, r, p, q);
    }

    lemma ListFits(owner: seq<Option<nat>>, bytes: seq<nat>, load: seq<nat>, lists: seq<seq<nat>>, s: nat)
      requires Accounts(owner, bytes, load) && ListsOk(owner, bytes, lists) && s < |lists| == |load|
      ensures AllFit(lists[s], bytes, load[s])
    {
      forall i | 0 <= i < |lists[s]| ensures bytes[lists[s][i]] <= load[s] {
        OwnerFits(owner, bytes, load, lists[s][i]);
      }
    }

    /** The loop of bond_rebalance that shifts load from the most to the least loaded slave.
        `log` is what it decided, round by round: each decision is right in the state the
        earlier ones lead to, and all together lead to the state at the end, where the slaves
        still considered are within the threshold of each other. */
    method Spread(start: seq<nat>) returns (bals: seq<nat>, ghost log: seq<Event>)
      requires Consistent(owner, bytes, enabled, load, lists) && Sorted(load, enabled, start)
      modifies `owner, `load, `lists
      ensures Consistent(owner, bytes, enabled, load, lists) && Sum(load) == old(Sum(load))
      ensures Sorted(load, enabled, bals) && Settled(load, bals)
      ensures var s := Snapshot(old(owner), old(lists), Elements(start));
              Decisions(bytes, s, log) && Replay(s, log) == Snapshot(owner, lists, Elements(bals))
    {
      bals, log := start, [];
      ghost var s := Snapshot(owner, lists, Elements(start));
      while |bals| >= 2
        invariant Consistent(owner, bytes, enabled, load, lists) && Sum(load) == old(Sum(load))
        invariant Sorted(load, enabled, bals)
        invariant Decisions(bytes, s, log) && Replay(s, log) == Snapshot(owner, lists, Elements(bals))
        decreases Lengths(lists) + |bals|
      {
        var from, to := bals[0], bals[|bals| - 1];
        var overload: nat := load[from] - load[to];
        if overload < load[to] / 32 || overload < MIN_OVERLOAD {
          break;
        }
        ListFits(owner, bytes, load, lists, from);
        var c := ChooseEntry(lists[from], bytes, load[from], load[to]);
        ghost var e := if c.Some? then Shift(lists[from][c.value], from, to) else Drop(from, to);
        MakesDecision(owner, bytes, enabled, load, lists, bals, c, e);
        Decided(bytes, s, log, e);
        if c.Some? {
          bals := MigrateAndSort(c.value, bals);
        } else {
          FrontDropped(bals);
          bals := bals[1..];
        }
        log := log + [e];
      }
    }

    /** The moving average: halves every entry and forgets those that reach zero. */
    method Decay()
      requires |owner| == |bytes|
      modifies `owner, `bytes
      ensures |owner| == old(|owner|) && |bytes| == old(|bytes|)
      ensures forall e | 0 <= e < |bytes| :: bytes[e] == old(bytes)[e] / 2
      ensures forall e | 0 <= e < |owner| :: owner[e] == if bytes[e] == 0 then None else old(owner)[e]
    {
      for e := 0 to |bytes|
        invariant |owner| == old(|owner|) && |bytes| == old(|bytes|)
        invariant forall k | 0 <= k < |bytes| :: bytes[k] == if k < e then old(bytes)[k] / 2 else old(bytes)[k]
        invariant forall k | 0 <= k < |owner| :: owner[k] == if k < e && bytes[k] == 0 then None else old(owner)[k]
      {
        bytes := bytes[e := bytes[e] / 2];
        if bytes[e] == 0 {
          owner := owner[e := None];
        }
      }
    }

    /** bond_rebalance.  `log` is what its loop decided, `mid` the assignment this leads to,
        before the decay, and `bals` the slaves still considered at the end. */
    method Rebalance(now: int) returns (ghost log: seq<Event>, ghost mid: seq<Option<nat>>, ghost bals: seq<nat>)
      requires Valid()
      modifies `nextRebalance, `owner, `bytes, `load, `lists
      ensures Valid()
      ensures !Due(now, adaptive, interval, old(nextRebalance)) ==>
                owner == old(owner) && bytes == old(bytes) && nextRebalance == old(nextRebalance)
      ensures Due(now, adaptive, interval, old(nextRebalance)) ==>
                && nextRebalance == now + interval
                && Decisions(old(bytes), Initially(old(owner), old(bytes), enabled), log)
                && Replay(Initially(old(owner), old(bytes), enabled), log) == Snapshot(mid, lists, Elements(bals))
                && Consistent(mid, old(bytes), enabled, load, lists)
                && Sum(load) == Sum(Loads(old(owner), old(bytes), |enabled|))
                && Sorted(load, enabled, bals) && Settled(load, bals)
                && (forall e | 0 <= e < HASH_SIZE :: bytes[e] == old(bytes)[e] / 2)
                && (forall e | 0 <= e < HASH_SIZE :: owner[e] == if bytes[e] == 0 then None else mid[e])
    {
      log, mid, bals := [], owner, [];
      if !adaptive || interval == 0 || now < nextRebalance {
        return;
      }
      nextRebalance := now + interval;
      Collect();
      assert load == Loads(owner, bytes, |enabled|);
      CollectedConsistent(owner, bytes, enabled, load, lists);
      var start := SortSlaves();
      assert Snapshot(owner, lists, Elements(start)) == Initially(owner, bytes, enabled);
      var rest;
      rest, log := Spread(start);
      mid, bals := owner, rest;
      Decay();
    }
  }

  /** The state before the first decision: all entries with traffic are listed and all enabled
      slaves are considered. */
  ghost function Initially(owner: seq<Option<nat>>, bytes: seq<nat>, enabled: seq<bool>): Snapshot
    requires |owner| == |bytes|
  {
    Snapshot(owner, seq(|enabled|, s requires 0 <= s < |enabled| => Listed(owner, bytes, s)), set s: nat | s < |enabled| && enabled[s])
  }

  ghost function Elements(bals: seq<nat>): set<nat> {
    set s | s in bals
  }

  lemma SameElements(bals: seq<nat>, first: nat, middle: seq<nat>, last: nat, r: seq<nat>, p: nat, q: nat)
    requires bals == [first] + middle + [last] && p <= |middle| && q <= |middle| + 1
    requires r == InsertAt(InsertAt(middle, p, first), q, last)
    ensures |r| == |bals| && Elements(r) == Elements(bals)
    ensures forall k | 0 <= k < |r| :: r[k] in Elements(bals)
  {
    Inserted(middle, p, first);
    Inserted(InsertAt(middle, p, first), q, last);
    forall k | 0 <= k < |r| ensures r[k] in Elements(r) {
      assert r[k] in r;
    }
  }

  lemma FrontDropped(bals: seq<nat>)
    requires bals != [] && bals[0] !in bals[1..]
    ensures Elements(bals[1..]) == Elements(bals) - {bals[0]}
  {
    assert bals == [bals[0]] + bals[1..];
  }

  /** What the loop does in a round is the decision called for. */
  lemma MakesDecision(owner: seq<Option<nat>>, bytes: seq<nat>, enabled: seq<bool>, load: seq<nat>, lists: seq<seq<nat>>, bals: seq<nat>, c: Option<nat>, e: Event)
    requires Consistent(owner, bytes, enabled, load, lists) && Sorted(load, enabled, bals) && |bals| >= 2
    requires Gap(load[bals[0]], load[bals[|bals| - 1]])
    requires c.Some? ==> FirstWorth(lists[bals[0]], bytes, load[bals[0]], load[bals[|bals| - 1]], c.value)
    requires c.None? ==> Stuck(lists[bals[0]], bytes, load[bals[0]], load[bals[|bals| - 1]])
    requires e == if c.Some? then Shift(lists[bals[0]][c.value], bals[0], bals[|bals| - 1]) else Drop(bals[0], bals[|bals| - 1])
    ensures Decision(bytes, Snapshot(owner, lists, Elements(bals)), e)
  {
    assert load[bals[0]] == Owned(owner, bytes, bals[0]) && load[bals[|bals| - 1]] == Owned(owner, bytes, bals[|bals| - 1]);
    forall x | x in Elements(bals)
      ensures Owned(owner, bytes, bals[|bals| - 1]) <= Owned(owner, bytes, x) <= Owned(owner, bytes, bals[0])
    {
      var i :| 0 <= i < |bals| && bals[i] == x;
      assert load[bals[i]] == Owned(owner, bytes, x);
    }
  }

  /** The test at the head of bond_rebalance. */
  predicate Due(now: int, adaptive: bool, interval: nat, next: int) {
    adaptive && interval != 0 && next <= now
  }

  function Loads(owner: seq<Option<nat>>, bytes: seq<nat>, n: nat): seq<nat>
    requires |owner| == |bytes|
  {
    seq(n, s requires 0 <= s < n => Owned(owner, bytes, s))
  }

  /** The bytes of all entries that some slave has. */
  function Assigned(owner: seq<Option<nat>>, bytes: seq<nat>): nat
    requires |owner| == |bytes|
  {
    if owner == [] then 0
    else (if owner[0].Some? then bytes[0] else 0) + Assigned(owner[1..], bytes[1..])
  }

  /** The slaves' loads together are the bytes of all assigned entries. */
  lemma {:induction false} LoadsAddUp(owner: seq<Option<nat>>, bytes: seq<nat>, n: nat)
    requires |owner| == |bytes| && forall e | 0 <= e < |owner| && owner[e].Some? :: owner[e].value < n
    ensures Sum(Loads(owner, bytes, n)) == Assigned(owner, bytes)
    decreases |owner|
  {
    if owner == [] {
      SumOfZeros(n);
      assert Loads(owner, bytes, n) == seq(n, _ => 0);
    } else {
      var m := |owner| - 1;
      var o, b := owner[..m], bytes[..m];
      LoadsAddUp(o, b, n);
      AssignedLast(owner, bytes);
      if owner[m].Some? {
        var s := owner[m].value;
        var l := Loads(o, b, n);
        assert Loads(owner, bytes, n) == l[s := l[s] + bytes[m]];
        SumUpdate(l, s, l[s] + bytes[m]);
      } else {
        assert Loads(owner, bytes, n) == Loads(o, b, n);
      }
    }
  }

  lemma {:induction false} AssignedLast(owner: seq<Option<nat>>, bytes: seq<nat>)
    requires |owner| == |bytes| > 0
    ensures var m := |owner| - 1;
            Assigned(owner, bytes) == Assigned(owner[..m], bytes[..m]) + if owner[m].Some? then bytes[m] else 0
  {
    var m := |owner| - 1;
    if m > 0 {
      AssignedLast(owner[1..], bytes[1..]);
      assert owner[1..][..m - 1] == owner[..m][1..] && bytes[1..][..m - 1] == bytes[..m][1..];
    }
  }

  lemma {:induction false} SumOfZeros(n: nat)
    ensures Sum(seq(n, _ => 0)) == 0
  {
    if n > 0 {
      SumOfZeros(n - 1);
      assert seq(n, _ => 0)[1..] == seq(n - 1, _ => 0);
    }
  }

  lemma CollectedConsistent(owner: seq<Option<nat>>, bytes: seq<nat>, enabled: seq<bool>, load: seq<nat>, lists: seq<seq<nat>>)
    requires |load| == |lists| == |enabled| && Accounts(owner, bytes, load)
    requires forall s: nat | s < |lists| :: lists[s] == Listed(owner, bytes, s)
    ensures Consistent(owner, bytes, enabled, load, lists)
  {
    forall s: nat | s < |lists|
      ensures forall i | 0 <= i < |lists[s]| :: lists[s][i] < |owner| && owner[lists[s][i]] == Some(s) && bytes[lists[s][i]] > 0
      ensures forall i, j | 0 <= i < j < |lists[s]| :: lists[s][i] != lists[s][j]
    {
      assert lists[s] == Listed(owner, bytes, s);
    }
  }

  lemma Inserted(bals: seq<nat>, k: nat, s: nat)
    requires k <= |bals|
    ensures forall x: nat :: x in InsertAt(bals, k, s) <==> x == s || x in bals
  {
    forall x: nat | x in bals ensures x in InsertAt(bals, k, s) {
      var i :| 0 <= i < |bals| && bals[i] == x;
      assert InsertAt(bals, k, s)[if i < k then i else i + 1] == x;
    }
    assert InsertAt(bals, k, s)[k] == s;
  }
}

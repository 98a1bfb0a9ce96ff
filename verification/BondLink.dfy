/** The link state machine and the output choice of `lib/bond.c`: `bond_run`,
    `bond_link_status_update`, `bond_choose_active_slave`, `choose_output_slave`,
    `bond_slave_register` and `bond_slave_unregister`. */
module BondLink {
  import opened Wrappers
  import Hrw

  const NEVER := 0x7fff_ffff_ffff_ffff  // LLONG_MAX: no timer pending
  const HASH_SIZE := 256

  datatype Mode = ActiveBackup | Slb | Tcp | Stable
  datatype Lacp = Disabled | Configured | Negotiated

  datatype Slave = Slave(stbId: nat, carrier: bool, mayEnable: bool, enabled: bool, expires: int) {
    /** The state the link and the client ask for. */
    predicate Wanted() {
      carrier && mayEnable
    }

    predicate Pending() {
      expires != NEVER
    }
  }

  datatype Delays = Delays(up: nat, down: nat)

  function DelayFor(lacp: Lacp, delays: Delays, up: bool): nat {
    if lacp != Disabled then 0 else if up then delays.up else delays.down
  }

  // ---- One slave -------------------------------------------------------------------------

  /** bond_enable_slave */
  function Enable(s: Slave, on: bool): Slave {
    s.(enabled := on, expires := NEVER)
  }

  /** The timer after the first half of bond_link_status_update. */
  function Timed(s: Slave, now: int, delay: nat): Slave {
    if s.Wanted() == s.enabled then s.(expires := NEVER)
    else if s.Pending() then s
    else s.(expires := now + delay)
  }

  /** bond_link_status_update */
  function Updated(s: Slave, now: int, delay: nat): (r: Slave)
    requires now + delay < NEVER
    ensures r.Pending() <==> r.Wanted() != r.enabled
    ensures r.Pending() ==> now < r.expires
    ensures r.Wanted() == s.Wanted() && (r.enabled == s.enabled || r.enabled == r.Wanted())
  {
    var t := Timed(s, now, delay);
    if now >= t.expires then Enable(t, t.Wanted()) else t
  }

  /** A slave after the link update of a run at `now`. */
  function Seen(s: Slave, now: int, lacp: Lacp, delays: Delays): Slave
    requires now + delays.up < NEVER && now + delays.down < NEVER
  {
    Updated(s, now, DelayFor(lacp, delays, s.Wanted()))
  }

  /** What can happen to a slave: a run of its bond, a change of carrier or of what the client
      allows, an outright bond_enable_slave from elsewhere, a new id. */
  datatype Event =
    | Ran(now: int, lacp: Lacp)
    | Linked(carrier: bool, mayEnable: bool)
    | Force(on: bool)
    | Tagged(stbId: nat)

  predicate InTime(now: int, delays: Delays) {
    now + delays.up < NEVER && now + delays.down < NEVER
  }

  predicate Timely(events: seq<Event>, delays: Delays) {
    forall i | 0 <= i < |events| && events[i].Ran? :: InTime(events[i].now, delays)
  }

  function Step(s: Slave, delays: Delays, e: Event): Slave
    requires e.Ran? ==> InTime(e.now, delays)
  {
    match e
    case Ran(now, lacp) => Seen(s, now, lacp, delays)
    case Linked(carrier, mayEnable) => s.(carrier := carrier, mayEnable := mayEnable)
    case Force(on) => Enable(s, on)
    case Tagged(stbId) => s.(stbId := stbId)
  }

  /** The slave after the first `n` events. */
  function After(s: Slave, delays: Delays, events: seq<Event>, n: nat): Slave
    requires Timely(events, delays) && n <= |events|
  {
    if n == 0 then s else Step(After(s, delays, events, n - 1), delays, events[n - 1])
  }

  /** From `k` on, up to `n`, every run found the link in state `up` and nothing was forced. */
  predicate Steady(s: Slave, delays: Delays, events: seq<Event>, k: nat, n: nat, up: bool)
    requires Timely(events, delays) && n <= |events|
  {
    forall j | k <= j < n :: !events[j].Force? && (events[j].Ran? ==> After(s, delays, events, j).Wanted() == up)
  }

  /** A pending timer was started by run `k`, and every run since saw the same link state. */
  ghost predicate StartedAt(s: Slave, delays: Delays, events: seq<Event>, n: nat, k: nat)
    requires Timely(events, delays) && n <= |events|
  {
    var r := After(s, delays, events, n);
    && k < n && events[k].Ran? && r.expires == events[k].now + DelayFor(events[k].lacp, delays, !r.enabled)
    && Steady(s, delays, events, k, n, !r.enabled)
  }

  lemma {:induction false} PendingSince(s: Slave, delays: Delays, events: seq<Event>, n: nat)
    requires Timely(events, delays) && n <= |events| && !s.Pending()
    ensures After(s, delays, events, n).Pending() ==> exists k: nat :: StartedAt(s, delays, events, n, k)
  {
    if n > 0 && After(s, delays, events, n).Pending() {
      PendingSince(s, delays, events, n - 1);
      var before := After(s, delays, events, n - 1);
      if before.Pending() {
        var k: nat :| StartedAt(s, delays, events, n - 1, k);
        assert StartedAt(s, delays, events, n, k);
      } else {
        assert StartedAt(s, delays, events, n, n - 1);
      }
    }
  }

  /** A run changes the state of a slave only if the link was in the new state at this run and
      at every run since one that lies at least its delay back, with nothing forced between. */
  lemma Debounced(s: Slave, delays: Delays, events: seq<Event>, n: nat)
    requires Timely(events, delays) && n < |events| && !s.Pending() && events[n].Ran?
    requires After(s, delays, events, n + 1).enabled != After(s, delays, events, n).enabled
    ensures var up := After(s, delays, events, n + 1).enabled;
            exists k: nat :: k <= n && events[k].Ran? && events[n].now >= events[k].now + DelayFor(events[k].lacp, delays, up)
                             && Steady(s, delays, events, k, n + 1, up)
  {
    var before := After(s, delays, events, n);
    if before.Pending() {
      PendingSince(s, delays, events, n);
      var k: nat :| StartedAt(s, delays, events, n, k);
      assert Steady(s, delays, events, k, n + 1, !before.enabled);
    } else {
      assert Steady(s, delays, events, n, n + 1, !before.enabled);
    }
  }

  lemma {:induction false} Waiting(s: Slave, delays: Delays, events: seq<Event>, k: nat, n: nat, up: bool)
    requires Timely(events, delays) && k <= n < |events| && events[k].Ran? && Steady(s, delays, events, k, n + 1, up)
    requires !After(s, delays, events, k).Pending()
    ensures var r := After(s, delays, events, n + 1);
            r.enabled == up || r.expires == events[k].now + DelayFor(events[k].lacp, delays, up)
    decreases n
  {
    if n > k {
      Waiting(s, delays, events, k, n - 1, up);
    }
  }

  /** The converse: a link that stays in one state for the delay gets the slave into it. */
  lemma Fires(s: Slave, delays: Delays, events: seq<Event>, k: nat, n: nat, up: bool)
    requires Timely(events, delays) && k <= n < |events| && events[k].Ran? && events[n].Ran? && Steady(s, delays, events, k, n + 1, up)
    requires !After(s, delays, events, k).Pending() && events[n].now >= events[k].now + DelayFor(events[k].lacp, delays, up)
    ensures After(s, delays, events, n + 1).enabled == up
  {
    Waiting(s, delays, events, k, n, up);
    if n > k {
      Waiting(s, delays, events, k, n - 1, up);
    }
  }

  predicate NoLacp(events: seq<Event>) {
    forall i | 0 <= i < |events| && events[i].Ran? :: events[i].lacp == Disabled
  }

  /** Without LACP a slave goes up only after the up delay and down only after the down delay. */
  lemma DelaysByName(s: Slave, delays: Delays, events: seq<Event>, n: nat)
    requires Timely(events, delays) && NoLacp(events) && n < |events| && !s.Pending() && events[n].Ran?
    requires After(s, delays, events, n + 1).enabled != After(s, delays, events, n).enabled
    ensures After(s, delays, events, n + 1).enabled ==>
              exists k: nat :: k <= n && events[k].Ran? && events[n].now - events[k].now >= delays.up && Steady(s, delays, events, k, n + 1, true)
    ensures !After(s, delays, events, n + 1).enabled ==>
              exists k: nat :: k <= n && events[k].Ran? && events[n].now - events[k].now >= delays.down && Steady(s, delays, events, k, n + 1, false)
  {
    Debounced(s, delays, events, n);
    var up := After(s, delays, events, n + 1).enabled;
    var k: nat :| k <= n && events[k].Ran? && events[n].now >= events[k].now + DelayFor(events[k].lacp, delays, up)
                  && Steady(s, delays, events, k, n + 1, up);
    assert events[k].lacp == Disabled;
  }

  /** A link that is up for the up delay brings the slave up, one that is down for the down
      delay brings it down; with LACP at run `k` there is no delay. */
  lemma FiresByName(s: Slave, delays: Delays, events: seq<Event>, k: nat, n: nat, up: bool)
    requires Timely(events, delays) && k <= n < |events| && events[k].Ran? && events[n].Ran? && Steady(s, delays, events, k, n + 1, up)
    requires !After(s, delays, events, k).Pending()
    requires events[n].now - events[k].now >= if events[k].lacp != Disabled then 0 else if up then delays.up else delays.down
    ensures After(s, delays, events, n + 1).enabled == up
  {
    Fires(s, delays, events, k, n, up);
  }

  // ---- The bond --------------------------------------------------------------------------

  /** Each slave is as its link update left it, except one that was made active because no
      slave was enabled; an active slave that stays enabled stays active. */
  predicate Elected(was: map<nat, Slave>, slaves: map<nat, Slave>, wasActive: Option<nat>, active: Option<nat>, now: int, lacp: Lacp, delays: Delays)
    requires now + delays.up < NEVER && now + delays.down < NEVER && was.Keys == slaves.Keys
  {
    && (forall id | id in slaves && slaves[id] != Seen(was[id], now, lacp, delays) ::
          && active == Some(id) && was[id].Wanted() && slaves[id] == Enable(Seen(was[id], now, lacp, delays), true)
          && forall x | x in slaves :: !Seen(was[x], now, lacp, delays).enabled)
    && (wasActive.Some? && wasActive.value in was && Seen(was[wasActive.value], now, lacp, delays).enabled ==> active == wasActive)
  }

  /** No slave walked before this one would have done as well: none of them is enabled, and
      unless this one is, none that is eligible is due as early. */
  ghost predicate FirstOfBest(order: seq<nat>, slaves: map<nat, Slave>, id: nat)
    requires id in slaves && forall i | 0 <= i < |order| :: order[i] in slaves
  {
    exists i | 0 <= i < |order| :: order[i] == id && forall j | 0 <= j < i :: WorseThan(slaves[order[j]], slaves[id])
  }

  predicate WorseThan(s: Slave, best: Slave) {
    !s.enabled && (best.enabled || !s.Pending() || !s.mayEnable || s.expires > best.expires)
  }

  class Bond {
    var mode: Mode
    var delays: Delays
    var interval: nat                // rebalance_interval
    var lacp: Lacp
    var order: seq<nat>              // the slave table, in the order it is walked
    var slaves: map<nat, Slave>
    var active: Option<nat>
    var owner: seq<Option<nat>>      // hash entries; empty in active-backup mode
    var revalidate: bool

    predicate Valid()
      reads `mode, `order, `slaves, `active, `owner
    {
      && (forall i, j | 0 <= i < j < |order| :: order[i] != order[j])
      && (forall i | 0 <= i < |order| :: order[i] in slaves)
      && (forall id | id in slaves :: id in order)
      && (active.Some? ==> active.value in slaves)
      && (forall e | 0 <= e < |owner| && owner[e].Some? :: owner[e].value in slaves)
      && (mode != ActiveBackup ==> |owner| == HASH_SIZE)
    }

    predicate AnyEnabled()
      reads `slaves
    {
      exists id :: id in slaves && slaves[id].enabled
    }

    /** The active slave is enabled, and there is one whenever some slave is enabled. */
    predicate ActiveOk()
      reads `active, `slaves
    {
      if active.Some? then active.value in slaves && slaves[active.value].enabled else !AnyEnabled()
    }

    /** A timer is pending exactly on the slaves whose wanted state differs from the actual. */
    predicate TimersOk()
      reads `slaves
    {
      forall id | id in slaves :: slaves[id].Pending() <==> slaves[id].Wanted() != slaves[id].enabled
    }

    /** bond_choose_slave */
    method ChooseSlave() returns (best: Option<nat>)
      requires Valid()
      ensures best.Some? ==> best.value in slaves
      ensures AnyEnabled() ==> best.Some? && slaves[best.value].enabled
      ensures !AnyEnabled() && best.None? ==> forall id | id in slaves :: !(slaves[id].Pending() && slaves[id].mayEnable)
      ensures !AnyEnabled() && best.Some? ==> slaves[best.value].Pending() && slaves[best.value].mayEnable
      ensures !AnyEnabled() && best.Some? ==>
                forall id | id in slaves && slaves[id].Pending() && slaves[id].mayEnable :: slaves[best.value].expires <= slaves[id].expires
      ensures best.Some? ==> FirstOfBest(order, slaves, best.value)
    {
      for i := 0 to |order|
        invariant forall j | 0 <= j < i :: !slaves[order[j]].enabled
      {
        if slaves[order[i]].enabled {
          return Some(order[i]);
        }
      }
      assert !AnyEnabled();
      best := None;
      for i := 0 to |order|
        invariant best.None? ==> forall j | 0 <= j < i :: !(slaves[order[j]].Pending() && slaves[order[j]].mayEnable)
        invariant best.Some? ==> best.value in slaves && slaves[best.value].Pending() && slaves[best.value].mayEnable
        invariant best.Some? ==> FirstOfBest(order, slaves, best.value)
        invariant best.Some? ==> forall j | 0 <= j < i && slaves[order[j]].Pending() && slaves[order[j]].mayEnable ::
                                   slaves[best.value].expires <= slaves[order[j]].expires
      {
        var s := slaves[order[i]];
        if s.Pending() && s.mayEnable && (best.None? || s.expires < slaves[best.value].expires) {
          best := Some(order[i]);
        }
      }
    }

    /** bond_choose_active_slave: an enabled slave, or else the pending one that is due first,
        which is then enabled at once. */
    method ChooseActive()
      requires Valid()
      modifies `active, `slaves, `revalidate
      ensures Valid() && ActiveOk()
      ensures old(AnyEnabled()) ==> slaves == old(slaves)
      ensures active.None? ==> slaves == old(slaves)
      ensures slaves.Keys == old(slaves).Keys
      ensures forall id | id in slaves :: slaves[id] == old(slaves)[id] || (active == Some(id) && old(slaves)[id].Pending() && old(slaves)[id].mayEnable && slaves[id] == Enable(old(slaves)[id], true))
      ensures !old(AnyEnabled()) && active.Some? ==>
                forall id | id in slaves && old(slaves)[id].Pending() && old(slaves)[id].mayEnable ::
                  old(slaves)[active.value].expires <= old(slaves)[id].expires
      ensures !old(AnyEnabled()) && active.None? ==>
                forall id | id in slaves :: !(slaves[id].Pending() && slaves[id].mayEnable)
      ensures old(revalidate) ==> revalidate
    {
      active := ChooseSlave();
      if active.Some? && !slaves[active.value].enabled {
        EnableSlave(active.value, true);
      }
    }

    /** bond_enable_slave */
    method EnableSlave(id: nat, on: bool)
      requires id in slaves
      modifies `slaves, `revalidate
      ensures slaves == old(slaves)[id := Enable(old(slaves)[id], on)]
      ensures revalidate == (old(revalidate) || (mode == Stable && old(slaves)[id].enabled != on))
    {
      var was := slaves[id].enabled;
      slaves := slaves[id := slaves[id].(expires := NEVER)];
      if on != was {
        slaves := slaves[id := slaves[id].(enabled := on)];
        if mode == Stable {
          revalidate := true;
        }
      }
    }

    /** bond_link_status_update */
    method LinkStatusUpdate(id: nat, now: int)
      requires id in slaves && now + delays.up < NEVER && now + delays.down < NEVER
      modifies `slaves, `revalidate
      ensures slaves == old(slaves)[id := Seen(old(slaves)[id], now, lacp, delays)]
      ensures old(revalidate) ==> revalidate
    {
      var s := slaves[id];
      var up := s.carrier && s.mayEnable;
      if (up == s.enabled) != (s.expires == NEVER) {
        if up == s.enabled {
          s := s.(expires := NEVER);
        } else {
          var delay := if lacp != Disabled then 0 else if up then delays.up else delays.down;
          s := s.(expires := now + delay);
        }
        slaves := slaves[id := s];
      }
      if now >= slaves[id].expires {
        EnableSlave(id, up);
      }
    }

    /** The slave walk of bond_run. */
    method UpdateAll(now: int)
      requires Valid() && now + delays.up < NEVER && now + delays.down < NEVER
      modifies `slaves, `revalidate
      ensures slaves.Keys == old(slaves).Keys
      ensures forall id | id in slaves :: slaves[id] == Seen(old(slaves)[id], now, lacp, delays)
      ensures old(revalidate) ==> revalidate
    {
      for i := 0 to |order|
        invariant slaves.Keys == old(slaves).Keys && (old(revalidate) ==> revalidate)
        invariant forall j | 0 <= j < |order| :: order[j] in slaves && slaves[order[j]] ==
                    if j < i then Seen(old(slaves)[order[j]], now, lacp, delays) else old(slaves)[order[j]]
      {
        LinkStatusUpdate(order[i], now);
      }
    }

    /** bond_entry_reset, when bond_run finds that flows must be revalidated. */
    method Revalidate()
      requires Valid()
      modifies `owner, `revalidate
      ensures Valid() && !revalidate
      ensures if old(revalidate) then forall e | 0 <= e < |owner| :: owner[e] == None else owner == old(owner)
    {
      if revalidate {
        revalidate := false;
        owner := if mode == ActiveBackup then [] else seq(HASH_SIZE, _ => None);
      }
    }

    /** Replaces an active slave that is missing or disabled. */
    method KeepActive()
      requires Valid() && TimersOk()
      modifies `active, `slaves, `revalidate
      ensures Valid() && TimersOk() && ActiveOk() && slaves.Keys == old(slaves).Keys
      ensures forall id | id in slaves && slaves[id] != old(slaves)[id] ::
                active == Some(id) && old(slaves)[id].Wanted() && !old(AnyEnabled()) && slaves[id] == Enable(old(slaves)[id], true)
      ensures old(active).Some? && old(slaves)[old(active).value].enabled ==> active == old(active)
      ensures old(revalidate) ==> revalidate
    {
      if active.None? || !slaves[active.value].enabled {
        ChooseActive();
      }
    }

    /** The link updates and the choice of the active slave in bond_run. */
    method UpdateLinks(now: int)
      requires Valid() && now + delays.up < NEVER && now + delays.down < NEVER
      modifies `revalidate, `slaves, `active
      ensures Valid() && TimersOk() && ActiveOk()
      ensures slaves.Keys == old(slaves).Keys
      ensures Elected(old(slaves), slaves, old(active), active, now, lacp, delays)
      ensures old(revalidate) ==> revalidate
    {
      UpdateAll(now);
      ghost var seen := slaves;
      KeepActive();
      forall id | id in slaves && slaves[id] != seen[id] ensures forall x | x in slaves :: !seen[x].enabled {
      }
    }

    /** bond_run: afterwards timers and the active slave are as they should be.  A slave
        departs from its own link update only by being made active when none was enabled. */
    method Run(now: int, status: Lacp)
      requires Valid() && now + delays.up < NEVER && now + delays.down < NEVER
      modifies `lacp, `revalidate, `slaves, `active, `owner
      ensures Valid() && TimersOk() && ActiveOk() && !revalidate
      ensures lacp == status && slaves.Keys == old(slaves).Keys
      ensures Elected(old(slaves), slaves, old(active), active, now, status, delays)
      ensures owner == old(owner) || (forall e | 0 <= e < |owner| :: owner[e] == None)
      ensures old(lacp) != status ==> forall e | 0 <= e < |owner| :: owner[e] == None
    {
      if lacp != status {
        lacp := status;
        revalidate := true;
      }
      UpdateLinks(now);
      Revalidate();
    }

    /** bond_slave_set_may_enable, and the network device's carrier changing. */
    method SetLink(id: nat, carrier: bool, mayEnable: bool)
      requires Valid() && id in slaves
      modifies `slaves
      ensures Valid() && slaves == old(slaves)[id := old(slaves)[id].(carrier := carrier, mayEnable := mayEnable)]
    {
      slaves := slaves[id := slaves[id].(carrier := carrier, mayEnable := mayEnable)];
    }

    /** bond_slave_register */
    method Register(id: nat, stbId: nat, carrier: bool)
      requires Valid()
      modifies `order, `slaves, `revalidate
      ensures Valid() && slaves.Keys == old(slaves).Keys + {id}
      ensures forall x | x in old(slaves) && x != id :: slaves[x] == old(slaves)[x]
      ensures slaves[id] == if id in old(slaves) then old(slaves)[id].(stbId := stbId) else Slave(stbId, carrier, false, carrier, NEVER)
      ensures revalidate == (old(revalidate) || id !in old(slaves) || old(slaves)[id].stbId != stbId)
    {
      if id !in slaves {
        order := order + [id];
        assert id == order[|order| - 1];
        slaves := slaves[id := Slave(0, carrier, false, false, NEVER)];
        revalidate := true;
        EnableSlave(id, carrier);
      }
      if slaves[id].stbId != stbId {
        revalidate := true;
        slaves := slaves[id := slaves[id].(stbId := stbId)];
      }
    }

    /** The hash entries of a slave that goes away. */
    method ClearEntries(id: nat)
      modifies `owner
      ensures |owner| == old(|owner|)
      ensures forall e | 0 <= e < |owner| :: owner[e] == if old(owner)[e] == Some(id) then None else old(owner)[e]
    {
      for e := 0 to |owner|
        invariant |owner| == old(|owner|)
        invariant forall k | 0 <= k < |owner| :: owner[k] == if k < e && old(owner)[k] == Some(id) then None else old(owner)[k]
      {
        if owner[e] == Some(id) {
          owner := owner[e := None];
        }
      }
    }

    /** bond_slave_unregister: nothing refers to the slave afterwards. */
    method Unregister(id: nat)
      requires Valid()
      modifies `order, `slaves, `owner, `active, `revalidate
      ensures Valid() && slaves.Keys == old(slaves).Keys - {id}
      ensures id !in old(slaves) ==> slaves == old(slaves) && owner == old(owner) && active == old(active)
      ensures forall x | x in slaves :: slaves[x] == old(slaves)[x] || (active == Some(x) && slaves[x] == Enable(old(slaves)[x], true))
      ensures (old(active) == Some(id) && id in old(slaves)) || old(ActiveOk()) ==> ActiveOk()
      ensures old(active) != Some(id) ==> active == old(active) && forall x | x in slaves :: slaves[x] == old(slaves)[x]
      ensures |owner| == old(|owner|) && forall e | 0 <= e < |owner| && old(owner)[e] != Some(id) :: owner[e] == old(owner)[e]
    {
      if id !in slaves {
        return;
      }
      EnableSlave(id, false);
      var wasActive := active == Some(id);
      ClearEntries(id);
      Forget(id);
      if wasActive {
        ChooseActive();
      }
    }

    static method Place(order: seq<nat>, id: nat) returns (i: nat)
      requires id in order
      ensures i < |order| && order[i] == id
    {
      i := 0;
      while order[i] != id
        invariant i < |order| && id !in order[..i]
        decreases |order| - i
      {
        assert order == order[..i + 1] + order[i + 1..];
        i := i + 1;
      }
    }

    /** hmap_remove, with the active slave forgotten if it is the one. */
    method Forget(id: nat)
      requires Valid() && id in slaves && Some(id) !in owner
      modifies `order, `slaves, `active
      ensures Valid() && slaves == old(slaves) - {id}
      ensures active == if old(active) == Some(id) then None else old(active)
    {
      var i := Place(order, id);
      Removed(order, i);
      order := order[..i] + order[i + 1..];
      slaves := slaves - {id};
      if active == Some(id) {
        active := None;
      }
    }

    lemma Removed(order: seq<nat>, i: nat)
      requires i < |order| && forall j, k | 0 <= j < k < |order| :: order[j] != order[k]
      ensures var r := order[..i] + order[i + 1..];
              && (forall x: nat :: x in r <==> x in order && x != order[i])
              && (forall j, k | 0 <= j < k < |r| :: r[j] != r[k])
    {
      var r := order[..i] + order[i + 1..];
      forall x: nat | x in order && x != order[i] ensures x in r {
        var j :| 0 <= j < |order| && order[j] == x;
        assert r[if j < i then j else j - 1] == x;
      }
    }

    predicate Blocked()
      reads `lacp, `mode
    {
      lacp == Configured || (mode == Tcp && lacp != Negotiated)
    }

    /** choose_output_slave for a flow that falls on hash entry `entry`.  `random` is the
        position drawn from the slave table and `weights` the flow's hash with each slave. */
    method ChooseOutput(entry: nat, random: nat, weights: seq<nat>) returns (r: Option<nat>)
      requires Valid() && ActiveOk() && |weights| == |order|
      requires random < |order| && entry < HASH_SIZE
      modifies `owner
      ensures Valid()
      ensures r.Some? ==> r.value in slaves && slaves[r.value].enabled
      ensures r.None? <==> Blocked() || !AnyEnabled()
      ensures |owner| == old(|owner|) && forall e | 0 <= e < |owner| && e != entry :: owner[e] == old(owner)[e]
      ensures !Blocked() && mode == ActiveBackup ==> r == active
      ensures !Blocked() && (mode == Slb || mode == Tcp) && interval != 0 ==>
                && owner[entry] == r
                && r == if old(owner)[entry].Some? && slaves[old(owner)[entry].value].enabled then old(owner)[entry]
                        else if slaves[order[random]].enabled then Some(order[random]) else active
      ensures !Blocked() && (mode == Stable || (mode != ActiveBackup && interval == 0)) ==> StableChoice(order, slaves, weights, r)
      ensures Blocked() || mode == ActiveBackup || mode == Stable || interval == 0 ==> owner == old(owner)
    {
      if lacp == Configured {
        return None;
      }
      if mode == ActiveBackup {
        return active;
      }
      if mode == Tcp && lacp != Negotiated {
        return None;
      }
      if mode == Stable || interval == 0 {
        r := ChooseStable(weights);
        return;
      }
      r := owner[entry];
      if r.None? || !slaves[r.value].enabled {
        r := Some(order[random]);
        if !slaves[order[random]].enabled {
          r := active;
        }
        owner := owner[entry := r];
      }
    }

    /** choose_stb_slave */
    method ChooseStable(weights: seq<nat>) returns (r: Option<nat>)
      requires Valid() && |weights| == |order|
      ensures StableChoice(order, slaves, weights, r)
      ensures r.None? <==> !AnyEnabled()
      ensures r.Some? ==> r.value in slaves && slaves[r.value].enabled
    {
      var best := Hrw.ChooseStable(EnabledOf(order, slaves), weights);
      if best.None? {
        forall i | 0 <= i < |order| ensures !slaves[order[i]].enabled {
          assert !EnabledOf(order, slaves)[i];
        }
        return None;
      }
      assert EnabledOf(order, slaves)[best.value] && slaves[order[best.value]].enabled;
      r := Some(order[best.value]);
      assert r == SlaveAt(order, best);
    }
  }

  function SlaveAt(order: seq<nat>, w: Option<nat>): Option<nat>
    requires w.Some? ==> w.value < |order|
  {
    if w.None? then None else Some(order[w.value])
  }

  /** `r` is the enabled slave with the highest weight, the first one of these. */
  ghost predicate StableChoice(order: seq<nat>, slaves: map<nat, Slave>, weights: seq<nat>, r: Option<nat>) {
    && |weights| == |order| && (forall i | 0 <= i < |order| :: order[i] in slaves)
    && exists w: Option<nat> | Hrw.Winner(EnabledOf(order, slaves), weights, w) :: r == SlaveAt(order, w)
  }

  /** Disabling a slave moves only the flows that went out through it. */
  lemma StableDisable(order: seq<nat>, slaves: map<nat, Slave>, id: nat, weights: seq<nat>, r: Option<nat>, q: Option<nat>)
    requires id in slaves && (forall i, j | 0 <= i < j < |order| :: order[i] != order[j])
    requires StableChoice(order, slaves, weights, r) && StableChoice(order, slaves[id := Enable(slaves[id], false)], weights, q)
    ensures r != Some(id) ==> q == r
    ensures q != Some(id)
  {
    var n := slaves[id := Enable(slaves[id], false)];
    var w: Option<nat> :| Hrw.Winner(EnabledOf(order, slaves), weights, w) && r == SlaveAt(order, w);
    var v: Option<nat> :| Hrw.Winner(EnabledOf(order, n), weights, v) && q == SlaveAt(order, v);
    Hrw.MinimalDisruption(EnabledOf(order, n), EnabledOf(order, slaves), weights, v, w);
    if v.Some? {
      assert EnabledOf(order, n)[v.value];
    }
  }

  /** Enabling a slave moves flows only onto it. */
  lemma StableEnable(order: seq<nat>, slaves: map<nat, Slave>, id: nat, weights: seq<nat>, r: Option<nat>, q: Option<nat>)
    requires id in slaves && (forall i, j | 0 <= i < j < |order| :: order[i] != order[j])
    requires StableChoice(order, slaves, weights, r) && StableChoice(order, slaves[id := Enable(slaves[id], true)], weights, q)
    ensures q == r || q == Some(id)
  {
    var n := slaves[id := Enable(slaves[id], true)];
    var w: Option<nat> :| Hrw.Winner(EnabledOf(order, slaves), weights, w) && r == SlaveAt(order, w);
    var v: Option<nat> :| Hrw.Winner(EnabledOf(order, n), weights, v) && q == SlaveAt(order, v);
    Hrw.MinimalDisruption(EnabledOf(order, slaves), EnabledOf(order, n), weights, w, v);
    if v.Some? && q != Some(id) {
      assert EnabledOf(order, slaves)[v.value] == EnabledOf(order, n)[v.value];
    }
  }

  function EnabledOf(order: seq<nat>, slaves: map<nat, Slave>): (r: seq<bool>)
    requires forall i | 0 <= i < |order| :: order[i] in slaves
    ensures |r| == |order|
  {
    seq(|order|, i requires 0 <= i < |order| => slaves[order[i]].enabled)
  }

  // ---- Runs of calls ---------------------------------------------------------------------

  datatype Call =
    | RunAt(now: int, status: Lacp)
    | SetLinkOf(id: nat, carrier: bool, mayEnable: bool)
    | RegisterAs(id: nat, stbId: nat, carrier: bool)
    | UnregisterOf(id: nat)

  /** What a call on the bond is for one of its slaves.  Besides the event that goes with the
      call, the slave may be elected active and enabled at once. */
  predicate Explains(c: Call, id: nat, events: seq<Event>) {
    match c
    case RunAt(now, status) => events == [Ran(now, status)] || events == [Ran(now, status), Force(true)]
    case SetLinkOf(x, carrier, mayEnable) => events == if x == id then [Linked(carrier, mayEnable)] else []
    case RegisterAs(x, stbId, _) => events == if x == id then [Tagged(stbId)] else []
    case UnregisterOf(_) => events == [] || events == [Force(true)]
  }

  function Concat(chunks: seq<seq<Event>>): seq<Event> {
    if chunks == [] then [] else Concat(chunks[..|chunks| - 1]) + chunks[|chunks| - 1]
  }

  lemma ConcatMore(chunks: seq<seq<Event>>, events: seq<Event>)
    ensures Concat(chunks + [events]) == Concat(chunks) + events
  {
    assert (chunks + [events])[..|chunks|] == chunks;
  }

  predicate CallOk(c: Call, id: nat, delays: Delays) {
    (c.RunAt? ==> InTime(c.now, delays)) && (c.UnregisterOf? ==> c.id != id)
  }

  lemma {:induction false} AfterPrefix(s: Slave, delays: Delays, a: seq<Event>, b: seq<Event>, n: nat)
    requires Timely(a, delays) && Timely(a + b, delays) && n <= |a|
    ensures After(s, delays, a + b, n) == After(s, delays, a, n)
  {
    if n > 0 {
      AfterPrefix(s, delays, a, b, n - 1);
    }
  }

  lemma {:induction false} AfterMore(s: Slave, delays: Delays, a: seq<Event>, b: seq<Event>, n: nat)
    requires Timely(a, delays) && Timely(b, delays) && n <= |b|
    ensures Timely(a + b, delays) && After(s, delays, a + b, |a| + n) == After(After(s, delays, a, |a|), delays, b, n)
  {
    if n == 0 {
      AfterPrefix(s, delays, a, b, |a|);
    } else {
      AfterMore(s, delays, a, b, n - 1);
    }
  }

  /** One call, and what it is for slave `id`. */
  method Do(bond: Bond, c: Call, ghost id: nat) returns (ghost events: seq<Event>)
    requires bond.Valid() && id in bond.slaves && CallOk(c, id, bond.delays)
    modifies bond`lacp, bond`revalidate, bond`slaves, bond`active, bond`owner, bond`order
    ensures bond.Valid() && id in bond.slaves
    ensures Explains(c, id, events) && Timely(events, bond.delays)
    ensures bond.slaves[id] == After(old(bond.slaves)[id], bond.delays, events, |events|)
  {
    ghost var s := bond.slaves[id];
    match c {
      case RunAt(now, status) =>
        bond.Run(now, status);
        events := [Ran(now, status)];
        if bond.slaves[id] != Seen(s, now, status, bond.delays) {
          events := events + [Force(true)];
          assert After(s, bond.delays, events, 1) == Seen(s, now, status, bond.delays);
        }
      case SetLinkOf(x, carrier, mayEnable) =>
        if x in bond.slaves {  // the call is for slaves of the bond only
          bond.SetLink(x, carrier, mayEnable);
        }
        events := if x == id then [Linked(carrier, mayEnable)] else [];
      case RegisterAs(x, stbId, carrier) =>
        bond.Register(x, stbId, carrier);
        events := if x == id then [Tagged(stbId)] else [];
      case UnregisterOf(x) =>
        bond.Unregister(x);
        events := if bond.slaves[id] == s then [] else [Force(true)];
    }
  }

  /** Any run of calls that keeps slave `id`: the slave is as a history of events leaves it in
      which every run of the bond, with its time, stands exactly where it was made.  What
      Debounced and Fires say of such histories is what the bond does. */
  method Drive(bond: Bond, calls: seq<Call>, ghost id: nat) returns (ghost chunks: seq<seq<Event>>)
    requires bond.Valid() && id in bond.slaves
    requires forall i | 0 <= i < |calls| :: CallOk(calls[i], id, bond.delays)
    modifies bond`lacp, bond`revalidate, bond`slaves, bond`active, bond`owner, bond`order
    ensures bond.Valid() && id in bond.slaves
    ensures |chunks| == |calls| && forall i | 0 <= i < |calls| :: Explains(calls[i], id, chunks[i])
    ensures Timely(Concat(chunks), bond.delays)
    ensures bond.slaves[id] == After(old(bond.slaves)[id], bond.delays, Concat(chunks), |Concat(chunks)|)
  {
    chunks := [];
    ghost var s := bond.slaves[id];
    for i := 0 to |calls|
      invariant bond.Valid() && id in bond.slaves
      invariant |chunks| == i && forall k | 0 <= k < i :: Explains(calls[k], id, chunks[k])
      invariant Timely(Concat(chunks), bond.delays)
      invariant bond.slaves[id] == After(s, bond.delays, Concat(chunks), |Concat(chunks)|)
    {
      ghost var events := Do(bond, calls[i], id);
      AfterMore(s, bond.delays, Concat(chunks), events, |events|);
      ConcatMore(chunks, events);
      chunks := chunks + [events];
    }
  }

  /** The run `n` of a history changed the slave after a delay over which the link was steady. */
  ghost predicate AfterDelay(s: Slave, delays: Delays, events: seq<Event>, n: nat, up: bool)
    requires Timely(events, delays) && n < |events| && events[n].Ran?
  {
    exists k: nat :: k <= n && events[k].Ran? && events[n].now >= events[k].now + DelayFor(events[k].lacp, delays, up)
                     && Steady(s, delays, events, k, n + 1, up)
  }

  /** Debouncing for a slave of a bond: after any run of calls, a further run changes the
      slave's state only after the delay, or by electing it when no slave would be enabled. */
  method RunDebounced(bond: Bond, calls: seq<Call>, now: int, status: Lacp, ghost id: nat)
    returns (ghost chunks: seq<seq<Event>>, ghost before: map<nat, Slave>)
    requires bond.Valid() && id in bond.slaves && !bond.slaves[id].Pending() && InTime(now, bond.delays)
    requires forall i | 0 <= i < |calls| :: CallOk(calls[i], id, bond.delays)
    modifies bond`lacp, bond`revalidate, bond`slaves, bond`active, bond`owner, bond`order
    ensures |chunks| == |calls| && forall i | 0 <= i < |calls| :: Explains(calls[i], id, chunks[i])
    ensures id in before && id in bond.slaves && Timely(Concat(chunks), bond.delays)
    ensures before[id] == After(old(bond.slaves)[id], bond.delays, Concat(chunks), |Concat(chunks)|)
    ensures bond.slaves[id].enabled != before[id].enabled ==>
              || (bond.active == Some(id) && bond.slaves[id].enabled && forall x | x in before :: !Seen(before[x], now, status, bond.delays).enabled)
              || AfterDelay(old(bond.slaves)[id], bond.delays, Concat(chunks) + [Ran(now, status)], |Concat(chunks)|, bond.slaves[id].enabled)
  {
    ghost var s := bond.slaves[id];
    chunks := Drive(bond, calls, id);
    before := bond.slaves;
    bond.Run(now, status);
    ghost var past := Concat(chunks);
    ghost var events := past + [Ran(now, status)];
    AfterPrefix(s, bond.delays, past, [Ran(now, status)], |past|);
    ghost var seen := Seen(before[id], now, status, bond.delays);
    assert After(s, bond.delays, events, |past| + 1) == seen;
    if bond.slaves[id] == seen && seen.enabled != before[id].enabled {
      Debounced(s, bond.delays, events, |past|);
    }
  }
}

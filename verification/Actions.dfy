/** The action interpreter of `datapath/actions.c` and its validators in
    `datapath/datapath.c`.  A packet is its bytes; header editing, random numbers and memory
    pressure come from an environment, indexed by a running count of such questions. */
module Actions {
  import opened Wrappers

  const DP_MAX_PORTS := 65535
  const SAMPLE_ACTION_DEPTH := 3
  const ETH_P_8021Q := 0x8100
  const VLAN_TAG_PRESENT := 0x1000

  type Packet = seq<nat>

  datatype Action =
    | Output(port: nat)
    | Remote(port: nat, ip: nat)
    | Userspace(pid: nat, userdata: Option<nat>)
    | PushVlan(tpid: nat, tci: nat)
    | PopVlan
    | Set(key: nat)
    | Sample(probability: nat, actions: seq<Action>)

  /** What an action list makes visible: a packet on a port, or a packet sent to userspace. */
  datatype Event = Sent(port: nat, packet: Packet) | Upcall(pid: nat, userdata: Option<nat>, packet: Packet)

  /** `edit` carries out a push, pop or set and may fail; `encap` is the remote encapsulation,
      whose result the interpreter does not look at; `random` is net_random. */
  datatype Env = Env(edit: (Action, Packet, nat) -> Option<Packet>, encap: (nat, Packet, nat) -> Packet, random: nat -> nat)

  datatype State = State(packet: Packet, trace: seq<Event>, asked: nat) {
    function Emit(e: Event): State {
      this.(trace := trace + [e])
    }
  }

  // ---- The simple interpreter ------------------------------------------------------------

  /** Carries out the actions one by one, sending a copy of the packet at each output. */
  function Interpret(env: Env, acts: seq<Action>, s: State): (State, bool)
    decreases acts
  {
    if acts == [] then (s, true)
    else
      var (t, ok) := InterpretOne(env, acts[0], s);
      if ok then Interpret(env, acts[1..], t) else (t, false)
  }

  function InterpretOne(env: Env, a: Action, s: State): (State, bool)
    decreases a
  {
    match a
    case Output(port) => (s.Emit(Sent(port, s.packet)), true)
    case Remote(port, ip) =>
      var packet := env.encap(ip, s.packet, s.asked);
      (State(packet, s.trace, s.asked + 1).Emit(Sent(port, packet)), true)
    case Userspace(pid, userdata) => (s.Emit(Upcall(pid, userdata, s.packet)), true)
    case Sample(probability, actions) =>
      var t := s.(asked := s.asked + 1);
      if env.random(s.asked) >= probability then (t, true) else Interpret(env, actions, t)
    case _ =>
      var r := env.edit(a, s.packet, s.asked);
      var t := s.(asked := s.asked + 1);
      if r.Some? then (t.(packet := r.value), true) else (t, false)
  }

  /** A list in two parts is the first part and then, if it succeeds, the second. */
  lemma {:induction false} InterpretParts(env: Env, a: seq<Action>, b: seq<Action>, s: State)
    ensures var (t, ok) := Interpret(env, a, s);
            Interpret(env, a + b, s) == if ok then Interpret(env, b, t) else (t, false)
    decreases |a|
  {
    if a == [] {
      assert a + b == b;
    } else {
      assert (a + b)[0] == a[0] && (a + b)[1..] == a[1..] + b;
      var (t, ok) := InterpretOne(env, a[0], s);
      if ok {
        InterpretParts(env, a[1..], b, t);
      }
    }
  }

  /** A sample acts as its list put in its place when the draw is below the probability, and
      as nothing otherwise; the packet goes on as the list left it. */
  lemma SampleInPlace(env: Env, probability: nat, xs: seq<Action>, rest: seq<Action>, s: State)
    ensures var t := s.(asked := s.asked + 1);
            Interpret(env, [Sample(probability, xs)] + rest, s) ==
            Interpret(env, if env.random(s.asked) < probability then xs + rest else rest, t)
  {
    var list := [Sample(probability, xs)] + rest;
    assert list[0] == Sample(probability, xs) && list[1..] == rest;
    InterpretParts(env, xs, rest, s.(asked := s.asked + 1));
  }

  /** An output sends the packet as the actions before it left it, whatever comes after it. */
  lemma OutputSeesEarlierEdits(env: Env, before: seq<Action>, port: nat, after: seq<Action>, s: State)
    requires Interpret(env, before, s).1
    ensures var t := Interpret(env, before, s).0;
            t.trace + [Sent(port, t.packet)] <= Interpret(env, before + [Output(port)] + after, s).0.trace
  {
    var t := Interpret(env, before, s).0;
    assert before + [Output(port)] + after == before + ([Output(port)] + after);
    InterpretParts(env, before, [Output(port)] + after, s);
    assert ([Output(port)] + after)[0] == Output(port) && ([Output(port)] + after)[1..] == after;
    TraceGrows(env, after, t.Emit(Sent(port, t.packet)));
  }

  lemma {:induction false} TraceGrows(env: Env, acts: seq<Action>, s: State)
    ensures s.trace <= Interpret(env, acts, s).0.trace
    decreases acts
  {
    if acts != [] {
      if acts[0].Sample? && env.random(s.asked) < acts[0].probability {
        TraceGrows(env, acts[0].actions, s.(asked := s.asked + 1));
      }
      var (t, ok) := InterpretOne(env, acts[0], s);
      if ok {
        TraceGrows(env, acts[1..], t);
      }
    }
  }

  /** A remote output sends the encapsulated packet, and later actions find it encapsulated. */
  lemma RemoteEncapsulates(env: Env, port: nat, ip: nat, rest: seq<Action>, s: State)
    ensures var packet := env.encap(ip, s.packet, s.asked);
            Interpret(env, [Remote(port, ip)] + rest, s) == Interpret(env, [Output(port)] + rest, State(packet, s.trace, s.asked + 1))
  {
    assert ([Remote(port, ip)] + rest)[1..] == rest && ([Output(port)] + rest)[1..] == rest;
  }

  // ---- Validation ------------------------------------------------------------------------

  /** Every action, nested ones included, has legal arguments. */
  predicate Legal(keyOk: nat -> bool, acts: seq<Action>)
    decreases acts
  {
    forall i | 0 <= i < |acts| :: LegalOne(keyOk, acts[i])
  }

  predicate LegalOne(keyOk: nat -> bool, a: Action)
    decreases a
  {
    match a
    case Output(port) => port < DP_MAX_PORTS
    case Remote(port, _) => port < DP_MAX_PORTS
    case Userspace(pid, _) => pid != 0
    case PushVlan(tpid, tci) => tpid == ETH_P_8021Q && (tci / VLAN_TAG_PRESENT) % 2 == 1
    case PopVlan => true
    case Set(key) => keyOk(key)
    case Sample(_, actions) => Legal(keyOk, actions)
  }

  /** How deep `sample` actions nest in a list. */
  function Nesting(acts: seq<Action>): nat
    decreases acts
  {
    if acts == [] then 0
    else
      var rest := Nesting(acts[1..]);
      var first := if acts[0].Sample? then 1 + Nesting(acts[0].actions) else 0;
      if first > rest then first else rest
  }

  lemma {:induction false} NestingOf(acts: seq<Action>, limit: int)
    ensures Nesting(acts) <= limit <==>
            0 <= limit && forall i | 0 <= i < |acts| && acts[i].Sample? :: 1 + Nesting(acts[i].actions) <= limit
    decreases acts
  {
    if acts != [] {
      NestingOf(acts[1..], limit);
      assert forall i | 0 < i < |acts| :: acts[i] == acts[1..][i - 1];
      if 0 <= limit && forall i | 0 <= i < |acts[1..]| && acts[1..][i].Sample? :: 1 + Nesting(acts[1..][i].actions) <= limit {
        forall i | 0 <= i < |acts| && acts[i].Sample? && i > 0 ensures 1 + Nesting(acts[i].actions) <= limit {
          assert acts[1..][i - 1] == acts[i];
        }
      }
    }
  }

  /** validate_actions and validate_sample: accept exactly the legal lists whose samples do
      not nest to SAMPLE_ACTION_DEPTH levels. */
  method ValidateActions(keyOk: nat -> bool, acts: seq<Action>, depth: nat) returns (ok: bool)
    ensures ok <==> Legal(keyOk, acts) && depth + Nesting(acts) < SAMPLE_ACTION_DEPTH
    decreases acts
  {
    NestingOf(acts, SAMPLE_ACTION_DEPTH - 1 - depth);
    if depth >= SAMPLE_ACTION_DEPTH {
      return false;
    }
    for i := 0 to |acts|
      invariant forall j | 0 <= j < i :: LegalOne(keyOk, acts[j])
      invariant forall j | 0 <= j < i && acts[j].Sample? :: 1 + Nesting(acts[j].actions) <= SAMPLE_ACTION_DEPTH - 1 - depth
    {
      match acts[i] {
        case Output(port) =>
          if port >= DP_MAX_PORTS {
            return false;
          }
        case Remote(port, _) =>
          if port >= DP_MAX_PORTS {
            return false;
          }
        case Userspace(pid, _) =>
          if pid == 0 {
            return false;
          }
        case PushVlan(tpid, tci) =>
          if tpid != ETH_P_8021Q || (tci / VLAN_TAG_PRESENT) % 2 == 0 {
            return false;
          }
        case PopVlan =>
        case Set(key) =>
          if !keyOk(key) {
            return false;
          }
        case Sample(_, actions) =>
          var nested := ValidateActions(keyOk, actions, depth + 1);
          if !nested {
            return false;
          }
      }
    }
    return true;
  }

  // ---- The interpreter with deferred output ----------------------------------------------

  class Executor {
    const env: Env
    var state: State
    var consumed: nat  // how often the original buffer was handed on or released

    constructor (env: Env, packet: Packet)
      ensures this.env == env && state == State(packet, [], 0) && consumed == 0
    {
      this.env, state, consumed := env, State(packet, [], 0), 0;
    }

    /** do_output of a copy */
    method SendClone(port: nat)
      modifies `state
      ensures state == old(state).Emit(Sent(port, old(state).packet))
    {
      state := state.Emit(Sent(port, state.packet));
    }

    /** sample */
    method DoSample(keyOk: nat -> bool, a: Action) returns (ok: bool)
      requires a.Sample? && LegalOne(keyOk, a)
      modifies `state, `consumed
      ensures (state, ok) == InterpretOne(env, a, old(state))
      ensures ok ==> consumed == old(consumed)
      decreases a, 0
    {
      var draw := env.random(state.asked);
      state := state.(asked := state.asked + 1);
      if draw >= a.probability {
        return true;
      }
      ok := DoExecuteActions(keyOk, a.actions, true);
    }

    /** push_vlan, pop_vlan and execute_set_action */
    method DoEdit(a: Action) returns (ok: bool)
      requires a.PushVlan? || a.PopVlan? || a.Set?
      modifies `state
      ensures (state, ok) == InterpretOne(env, a, old(state))
    {
      var r := env.edit(a, state.packet, state.asked);
      state := state.(asked := state.asked + 1);
      if r.None? {
        return false;
      }
      state := state.(packet := r.value);
      return true;
    }

    /** do_execute_actions: the last output is held back so that it can take the original
        buffer, which makes no visible difference on a validated list. */
    method DoExecuteActions(keyOk: nat -> bool, acts: seq<Action>, keep: bool) returns (ok: bool)
      requires Legal(keyOk, acts)
      modifies `state, `consumed
      ensures (state, ok) == Interpret(env, acts, old(state))
      ensures ok ==> consumed == old(consumed) + if keep then 0 else 1
      decreases acts, 1
    {
      var prev := -1;
      for i := 0 to |acts|
        invariant prev == -1 || 0 <= prev < DP_MAX_PORTS
        invariant Interpret(env, acts[i..], Flushed(state, prev)) == Interpret(env, acts, old(state))
        invariant consumed == old(consumed)
      {
        assert acts[i..][0] == acts[i] && acts[i..][1..] == acts[i + 1..];
        assert LegalOne(keyOk, acts[i]);
        if prev != -1 {
          SendClone(prev);
          prev := -1;
        }
        ok := true;
        match acts[i] {
          case Output(port) =>
            prev := port;
          case Remote(port, ip) =>
            prev := port;
            state := State(env.encap(ip, state.packet, state.asked), state.trace, state.asked + 1);
          case Userspace(pid, userdata) =>
            state := state.Emit(Upcall(pid, userdata, state.packet));
          case Sample(_, _) =>
            ok := DoSample(keyOk, acts[i]);
          case _ =>
            ok := DoEdit(acts[i]);
        }
        if !ok {
          consumed := consumed + 1;
          return;
        }
      }
      if prev != -1 {
        SendClone(prev);
        if !keep {
          consumed := consumed + 1;
        }
      } else if !keep {
        consumed := consumed + 1;
      }
      ok := true;
    }
  }

  /** The state once a held-back output has gone out. */
  function Flushed(s: State, prev: int): State
    requires prev >= -1
  {
    if prev == -1 then s else s.Emit(Sent(prev, s.packet))
  }
}

/** Loop suppression in `ovs_execute_actions` of `datapath/actions.c`.  Sending a packet may
    lead straight back into the function for another flow, on the same CPU. */
module LoopSuppress {
  const MAX_LOOPS := 5

  /** One call entered, an action list started, one call left. */
  datatype Event = Enter(flow: nat) | Start(flow: nat) | Leave

  // ---- What a history of events means ----------------------------------------------------

  /** Calls that have been entered and not left. */
  function Depth(trace: seq<Event>): int {
    if trace == [] then 0
    else
      var n := |trace| - 1;
      Depth(trace[..n]) + match trace[n] case Enter(_) => 1 case Leave => -1 case Start(_) => 0
  }

  /** Some call since the last time none was active was entered too deep. */
  predicate Flagged(trace: seq<Event>) {
    if trace == [] then false
    else
      var n := |trace| - 1;
      match trace[n]
      case Enter(_) => Flagged(trace[..n]) || Depth(trace) > MAX_LOOPS
      case Leave => Flagged(trace[..n]) && Depth(trace) != 0
      case Start(_) => Flagged(trace[..n])
  }

  /** The flows for which calls were made at depth `d`, from position `from` on. */
  function Calls(trace: seq<Event>, from: nat, d: int): seq<nat> {
    if |trace| <= from then []
    else
      var n := |trace| - 1;
      Calls(trace[..n], from, d) + if trace[n].Enter? && Depth(trace[..n]) == d then [trace[n].flow] else []
  }

  ghost predicate MadeAt(was: seq<Event>, trace: seq<Event>, d: int, flows: seq<nat>, from: nat, c: int) {
    Calls(trace, from, c) == Calls(was, from, c) + if c == d then flows else []
  }

  /** From `was` to `trace` the calls made at depth `d` are `flows`, and none was made higher up. */
  ghost predicate Made(was: seq<Event>, trace: seq<Event>, d: int, flows: seq<nat>) {
    forall from: nat, c: int | from <= |was| && c <= d :: MadeAt(was, trace, d, flows, from, c)
  }

  /** A list that starts does so at a permitted depth and while no loop is flagged. */
  predicate StartOk(trace: seq<Event>, i: nat)
    requires i < |trace|
  {
    trace[i].Start? ==> 1 <= Depth(trace[..i]) <= MAX_LOOPS && !Flagged(trace[..i])
  }

  predicate StartsOk(trace: seq<Event>) {
    forall i: nat | i < |trace| :: StartOk(trace, i)
  }

  lemma Appended(trace: seq<Event>, e: Event)
    ensures (trace + [e])[..|trace|] == trace
    ensures StartsOk(trace) && (e.Start? ==> 1 <= Depth(trace) <= MAX_LOOPS && !Flagged(trace)) ==> StartsOk(trace + [e])
  {
    assert (trace + [e])[..|trace|] == trace;
    if StartsOk(trace) && (e.Start? ==> 1 <= Depth(trace) <= MAX_LOOPS && !Flagged(trace)) {
      forall i: nat | i < |trace + [e]| ensures StartOk(trace + [e], i) {
        assert (trace + [e])[..i] == trace[..i];
        if i < |trace| {
          assert StartOk(trace, i);
        } else {
          assert trace[..i] == trace;
        }
      }
    }
  }

  lemma MadeOne(trace: seq<Event>, e: Event, d: int)
    requires e.Enter? ==> d <= Depth(trace)
    ensures Made(trace, trace + [e], d, if e.Enter? && d == Depth(trace) then [e.flow] else [])
  {
    assert (trace + [e])[..|trace|] == trace;
  }

  lemma CallMade(was: seq<Event>, entered: seq<Event>, done: seq<Event>, trace: seq<Event>, d: int, flow: nat, flows: seq<nat>)
    requires |was| <= |entered| <= |done|
    requires Made(was, entered, d, [flow]) && Made(entered, done, d + 1, flows) && Made(done, trace, d + 1, [])
    ensures Made(was, trace, d, [flow]) && Calls(trace, |entered|, d + 1) == flows
  {
    forall from: nat, c: int | from <= |was| && c <= d
      ensures MadeAt(was, trace, d, [flow], from, c)
    {
      assert MadeAt(was, entered, d, [flow], from, c);
      assert MadeAt(entered, done, d + 1, flows, from, c);
      assert MadeAt(done, trace, d + 1, [], from, c);
    }
    assert MadeAt(entered, done, d + 1, flows, |entered|, d + 1);
    assert MadeAt(done, trace, d + 1, [], |entered|, d + 1);
  }

  lemma MadeMore(was: seq<Event>, mid: seq<Event>, trace: seq<Event>, d: int, a: seq<nat>, b: seq<nat>)
    requires |was| <= |mid| && Made(was, mid, d, a) && Made(mid, trace, d, b)
    ensures Made(was, trace, d, a + b)
  {
    forall from: nat, c: int | from <= |was| && c <= d ensures MadeAt(was, trace, d, a + b, from, c) {
      assert MadeAt(was, mid, d, a, from, c);
      assert MadeAt(mid, trace, d, b, from, c);
    }
  }

  // ---- ovs_execute_actions ---------------------------------------------------------------

  /** The per-CPU counter, and the flows whose action lists were emptied.  `reentry` is the
      port topology: the flows whose lists are entered, in order, while the list of a flow is
      carried out, given all that happened so far. */
  class Cpu {
    const reentry: (nat, seq<Event>) -> seq<nat>
    var count: nat
    var looping: bool
    var emptied: set<nat>
    var trace: seq<Event>

    constructor (reentry: (nat, seq<Event>) -> seq<nat>)
      ensures Valid() && count == 0 && emptied == {} && trace == []
    {
      this.reentry, count, looping, emptied, trace := reentry, 0, false, {}, [];
    }

    /** The counter is the depth, the flag tells of a loop, and every list that started was
        allowed to. */
    ghost predicate Valid()
      reads this
    {
      && count == Depth(trace) && looping == Flagged(trace) && StartsOk(trace)
      && (count == 0 ==> !looping)
    }

    /** Notes an event in the history. */
    method Note(e: Event)
      requires StartsOk(trace) && (e.Start? ==> 1 <= Depth(trace) <= MAX_LOOPS && !Flagged(trace))
      modifies `trace
      ensures trace == old(trace) + [e] && trace[..|trace| - 1] == old(trace) && StartsOk(trace)
      ensures e.Enter? ==> Made(old(trace), trace, Depth(old(trace)), [e.flow])
      ensures !e.Enter? ==> Made(old(trace), trace, Depth(old(trace)), [])
    {
      MadeOne(trace, e, Depth(trace));
      Appended(trace, e);
      trace := trace + [e];
    }

    /** Entry into ovs_execute_actions. */
    method Count(flow: nat)
      requires Valid() && count <= MAX_LOOPS
      modifies `count, `looping, `trace
      ensures Valid() && count == old(count) + 1
      ensures trace == old(trace) + [Enter(flow)] && Made(old(trace), trace, old(count), [flow])
      ensures looping == (old(looping) || count > MAX_LOOPS)
    {
      count := count + 1;
      Note(Enter(flow));
      if count > MAX_LOOPS {
        looping := true;
      }
    }

    /** The part of do_execute_actions that matters here: each output in turn may lead back. */
    method Carry(flows: seq<nat>)
      requires Valid() && 1 <= count <= MAX_LOOPS
      modifies `count, `looping, `emptied, `trace
      ensures Valid() && count == old(count)
      ensures old(trace) <= trace && (old(looping) ==> looping)
      ensures old(emptied) <= emptied && Made(old(trace), trace, count, flows)
      decreases MAX_LOOPS - count, 1
    {
      for i := 0 to |flows|
        invariant Valid() && count == old(count)
        invariant old(trace) <= trace && (old(looping) ==> looping)
        invariant old(emptied) <= emptied && Made(old(trace), trace, count, flows[..i])
      {
        ghost var mid := trace;
        var _ := Execute(flows[i]);
        assert flows[..i + 1] == flows[..i] + [flows[i]];
        MadeMore(old(trace), mid, trace, count, flows[..i], [flows[i]]);
      }
      assert flows[..|flows|] == flows;
    }

    /** The list of a flow that is allowed to start, and the check after it. */
    method Begin(flow: nat) returns (ok: bool)
      requires Valid() && !looping && 1 <= count <= MAX_LOOPS
      modifies `count, `looping, `emptied, `trace
      ensures Valid() && count == old(count) && ok == !looping
      ensures old(emptied) <= emptied && (!ok ==> flow in emptied)
      ensures old(trace) + [Start(flow)] <= trace
      ensures Made(old(trace), trace, count, if flow in old(emptied) then [] else reentry(flow, old(trace) + [Start(flow)]))
      decreases MAX_LOOPS - count, 2
    {
      Note(Start(flow));
      var flows := if flow in emptied then [] else reentry(flow, trace);
      ghost var started := trace;
      Carry(flows);
      MadeMore(old(trace), started, trace, count, [], flows);
      assert [] + flows == flows;
      if looping {
        emptied := emptied + {flow};
      }
      ok := !looping;
    }

    /** ovs_execute_actions for a packet of `flow`.  It fails exactly when a loop is flagged
        as it returns, and then empties the flow's list; once back at depth 0 nothing is
        flagged any more. */
    method Execute(flow: nat) returns (ok: bool)
      requires Valid() && count <= MAX_LOOPS
      modifies `count, `looping, `emptied, `trace
      ensures Valid() && count == old(count)
      ensures old(trace) < trace && trace[|trace| - 1] == Leave && ok == !Flagged(trace[..|trace| - 1])
      ensures count > 0 ==> ok == !looping && (old(looping) ==> looping)
      ensures old(emptied) <= emptied && (!ok ==> flow in emptied)
      ensures Made(old(trace), trace, count, [flow])
      ensures !old(looping) && count < MAX_LOOPS ==> Ran(reentry, old(trace), trace, count, flow, old(emptied))
      decreases MAX_LOOPS - count, 0
    {
      Count(flow);
      ghost var entered, flows: seq<nat> := trace, [];
      ok := !looping;
      if looping {
        emptied := emptied + {flow};
      } else {
        flows := if flow in emptied then [] else reentry(flow, trace + [Start(flow)]);
        ok := Begin(flow);
      }
      ghost var done := trace;
      count := count - 1;
      Note(Leave);
      CallMade(old(trace), entered, done, trace, count, flow, flows);
      if count == 0 {
        looping := false;
      }
    }
  }

  /** The call for `flow` entered, started its list, and led to the calls of that list. */
  ghost predicate Ran(reentry: (nat, seq<Event>) -> seq<nat>, was: seq<Event>, trace: seq<Event>, d: int, flow: nat, emptied: set<nat>) {
    var started := was + [Enter(flow)] + [Start(flow)];
    && started <= trace
    && Calls(trace, |was| + 1, d + 1) == if flow in emptied then [] else reentry(flow, started)
  }
}

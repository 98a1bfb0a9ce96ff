/** Request and reply matching in `datapath/brcompat_main.c`: any number of callers of
    `brc_send_command` interleaved with `brc_genl_dp_result`, step by step.  Sequence
    numbers do not wrap around. */
module Brcompat {
  import opened Wrappers

  type Thread = nat

  /** A reply from userspace to the request with number `seqNo`. */
  datatype Reply = Reply(seqNo: nat, content: nat)

  /** Where a caller of brc_send_command stands. */
  datatype Pc =
    | Idle
    | Locked                                 // holds brc_serial
    | Numbered(seqNo: nat)                   // has put its number into the request
    | Waiting(seqNo: nat)                    // has sent the request
    | Woken(seqNo: nat)                      // the completion was signalled
    | Returned(seqNo: nat, reply: Option<Reply>)
    | Failed

  datatype State = State(
    holder: Option<Thread>,                  // of brc_serial
    pcs: map<Thread, Pc>,
    brcSeq: nat,
    reply: Option<Reply>,                    // brc_reply
    done: bool,                              // brc_done
    sent: set<nat>)                          // numbers userspace has been sent

  datatype Step =
    | Call(t: Thread)
    | Lock(t: Thread)
    | Number(t: Thread)
    | Send(t: Thread)
    | SendFails(t: Thread, seen: bool)       // userspace may have seen it all the same
    | Wake(t: Thread)
    | TimeOut(t: Thread)
    | Grab(t: Thread)
    | Answer(r: Reply)                       // brc_genl_dp_result

  predicate At(s: State, t: Thread, pc: Pc) {
    t in s.pcs && s.pcs[t] == pc
  }

  /** Userspace answers only what it was sent, but late, or twice, or in any order. */
  predicate Enabled(s: State, step: Step) {
    match step
    case Call(t) => t in s.pcs ==> s.pcs[t].Idle? || s.pcs[t].Returned? || s.pcs[t].Failed?
    case Lock(t) => At(s, t, Idle) && s.holder.None?
    case Number(t) => At(s, t, Locked)
    case Send(t) => t in s.pcs && s.pcs[t].Numbered?
    case SendFails(t, _) => t in s.pcs && s.pcs[t].Numbered?
    case Wake(t) => t in s.pcs && s.pcs[t].Waiting? && s.done
    case TimeOut(t) => t in s.pcs && s.pcs[t].Waiting?
    case Grab(t) => t in s.pcs && s.pcs[t].Woken?
    case Answer(r) => r.seqNo in s.sent
  }

  function Apply(s: State, step: Step): State
    requires Enabled(s, step)
  {
    match step
    case Call(t) => s.(pcs := s.pcs[t := Idle])
    case Lock(t) => s.(holder := Some(t), pcs := s.pcs[t := Locked])
    case Number(t) => s.(brcSeq := s.brcSeq + 1, done := false, pcs := s.pcs[t := Numbered(s.brcSeq + 1)])
    case Send(t) => s.(sent := s.sent + {s.pcs[t].seqNo}, pcs := s.pcs[t := Waiting(s.pcs[t].seqNo)])
    case SendFails(t, seen) =>
      s.(holder := None, pcs := s.pcs[t := Failed], sent := if seen then s.sent + {s.pcs[t].seqNo} else s.sent)
    case Wake(t) => s.(done := false, pcs := s.pcs[t := Woken(s.pcs[t].seqNo)])
    case TimeOut(t) => s.(holder := None, pcs := s.pcs[t := Failed])
    case Grab(t) => s.(holder := None, reply := None, pcs := s.pcs[t := Returned(s.pcs[t].seqNo, s.reply)])
    case Answer(r) =>
      if s.brcSeq == r.seqNo then s.(brcSeq := s.brcSeq + 1, reply := Some(r), done := true) else s
  }

  const START := State(None, map[], 0, None, false, {})

  /** `trace` lists the states of a run and `steps` what leads from each to the next. */
  predicate IsRun(trace: seq<State>, steps: seq<Step>) {
    && |trace| == |steps| + 1 && trace[0] == START
    && forall i | 0 <= i < |steps| :: Enabled(trace[i], steps[i]) && trace[i + 1] == Apply(trace[i], steps[i])
  }

  predicate Holds(pc: Pc) {
    pc.Locked? || pc.Numbered? || pc.Waiting? || pc.Woken?
  }

  /** No number above `bound` was sent. */
  predicate SentUpTo(s: State, bound: int) {
    forall x | x in s.sent :: x <= bound
  }

  predicate Answered(s: State, n: nat) {
    s.reply.Some? && s.reply.value.seqNo == n && s.brcSeq == n + 1 && SentUpTo(s, n)
  }

  /** What is true while a given caller is at its place. */
  predicate PcOk(s: State, t: Thread)
    requires t in s.pcs
  {
    && (Holds(s.pcs[t]) ==> s.holder == Some(t))
    && match s.pcs[t]
       case Numbered(n) => !s.done && s.brcSeq == n && SentUpTo(s, n - 1)
       case Waiting(n) => if s.done then Answered(s, n) else s.brcSeq == n && SentUpTo(s, n)
       case Woken(n) => !s.done && Answered(s, n)
       case Returned(n, reply) => reply.Some? && reply.value.seqNo == n
       case _ => true
  }

  predicate Inv(s: State) {
    && SentUpTo(s, s.brcSeq)
    && (s.holder.Some? ==> s.holder.value in s.pcs && Holds(s.pcs[s.holder.value]))
    && (forall t | t in s.pcs :: PcOk(s, t))
  }

  lemma StepKeepsInv(s: State, step: Step)
    requires Inv(s) && Enabled(s, step)
    ensures Inv(Apply(s, step))
  {
    var n := Apply(s, step);
    forall t | t in n.pcs ensures PcOk(n, t) {
      if t in s.pcs {
        assert PcOk(s, t);
      }
      if !step.Answer? && step.t in s.pcs {
        assert PcOk(s, step.t);
      }
    }
  }

  lemma {:induction false} RunKeepsInv(trace: seq<State>, steps: seq<Step>, i: nat)
    requires IsRun(trace, steps) && i < |trace|
    ensures Inv(trace[i])
  {
    if i > 0 {
      RunKeepsInv(trace, steps, i - 1);
      StepKeepsInv(trace[i - 1], steps[i - 1]);
    }
  }

  /** In every run, what a call returns is a reply, and it answers the request of that call. */
  lemma ReplyMatchesRequest(trace: seq<State>, steps: seq<Step>, i: nat, t: Thread)
    requires IsRun(trace, steps) && i < |trace| && t in trace[i].pcs && trace[i].pcs[t].Returned?
    ensures var pc := trace[i].pcs[t]; pc.reply.Some? && pc.reply.value.seqNo == pc.seqNo
  {
    RunKeepsInv(trace, steps, i);
    assert PcOk(trace[i], t);
  }

  /** At most one caller is between taking and releasing the mutex. */
  lemma OneAtATime(trace: seq<State>, steps: seq<Step>, i: nat, t: Thread, u: Thread)
    requires IsRun(trace, steps) && i < |trace|
    requires t in trace[i].pcs && Holds(trace[i].pcs[t]) && u in trace[i].pcs && Holds(trace[i].pcs[u])
    ensures t == u
  {
    RunKeepsInv(trace, steps, i);
    assert PcOk(trace[i], t) && PcOk(trace[i], u);
  }

  /** The mutex is held only by a caller between taking and releasing it: every return, be it
      with a reply or an error, has released it. */
  lemma MutexReleased(trace: seq<State>, steps: seq<Step>, i: nat, t: Thread)
    requires IsRun(trace, steps) && i < |trace|
    ensures trace[i].holder == Some(t) <==> t in trace[i].pcs && Holds(trace[i].pcs[t])
  {
    RunKeepsInv(trace, steps, i);
    if t in trace[i].pcs {
      assert PcOk(trace[i], t);
    }
  }

  /** So a caller that wants the mutex can take it as soon as no call is in progress. */
  lemma LockAvailable(trace: seq<State>, steps: seq<Step>, i: nat, t: Thread)
    requires IsRun(trace, steps) && i < |trace| && At(trace[i], t, Idle)
    requires forall u | u in trace[i].pcs :: !Holds(trace[i].pcs[u])
    ensures Enabled(trace[i], Lock(t))
  {
    RunKeepsInv(trace, steps, i);
  }

  /** What was sent can be answered, also when sending reported an error after userspace had
      seen the request. */
  lemma SentCanBeAnswered(s: State, t: Thread, content: nat)
    requires t in s.pcs && s.pcs[t].Numbered?
    ensures var answer := Answer(Reply(s.pcs[t].seqNo, content));
            Enabled(Apply(s, Send(t)), answer) && Enabled(Apply(s, SendFails(t, true)), answer)
  {
  }

  /** In any state of a run in which no call is in progress, a caller that sends a request and
      gets an answer in time returns that answer and leaves the mutex free. */
  lemma CallSucceeds(trace: seq<State>, steps: seq<Step>, i: nat, t: Thread, content: nat) returns (end: State)
    requires IsRun(trace, steps) && i < |trace| && At(trace[i], t, Idle)
    requires forall u | u in trace[i].pcs :: !Holds(trace[i].pcs[u])
    ensures var answer := Reply(trace[i].brcSeq + 1, content);
            && Leads(trace[i], [Lock(t), Number(t), Send(t), Answer(answer), Wake(t), Grab(t)], end)
            && At(end, t, Returned(answer.seqNo, Some(answer))) && end.holder.None?
  {
    LockAvailable(trace, steps, i, t);
    var answer := Reply(trace[i].brcSeq + 1, content);
    var s1 := Apply(trace[i], Lock(t));
    var s2 := Apply(s1, Number(t));
    var s3 := Apply(s2, Send(t));
    end := AnswerReturned(s3, t, answer);
    Before(s2, Send(t), [Answer(answer), Wake(t), Grab(t)], end);
    Before(s1, Number(t), [Send(t), Answer(answer), Wake(t), Grab(t)], end);
    Before(trace[i], Lock(t), [Number(t), Send(t), Answer(answer), Wake(t), Grab(t)], end);
  }

  /** From waiting to having returned the answer. */
  lemma AnswerReturned(s: State, t: Thread, r: Reply) returns (end: State)
    requires At(s, t, Waiting(r.seqNo)) && s.brcSeq == r.seqNo && r.seqNo in s.sent
    ensures Leads(s, [Answer(r), Wake(t), Grab(t)], end)
    ensures At(end, t, Returned(r.seqNo, Some(r))) && end.holder.None?
  {
    var s4 := Apply(s, Answer(r));
    var s5 := Apply(s4, Wake(t));
    end := Apply(s5, Grab(t));
    Before(s5, Grab(t), [], end);
    Before(s4, Wake(t), [Grab(t)], end);
    Before(s, Answer(r), [Wake(t), Grab(t)], end);
  }

  lemma Before(s: State, step: Step, rest: seq<Step>, t: State)
    requires Enabled(s, step) && Leads(Apply(s, step), rest, t)
    ensures Leads(s, [step] + rest, t)
  {
    assert ([step] + rest)[1..] == rest;
  }

  /** The steps are possible from `s`, one after the other, and lead to `t`. */
  predicate Leads(s: State, steps: seq<Step>, t: State)
    decreases |steps|
  {
    if steps == [] then s == t else Enabled(s, steps[0]) && Leads(Apply(s, steps[0]), steps[1..], t)
  }

  /** An answer to any request but the one being waited for changes nothing while a caller
      waits, and none is accepted between being woken and taking the reply. */
  lemma StaleAnswersIgnored(trace: seq<State>, steps: seq<Step>, i: nat, t: Thread)
    requires IsRun(trace, steps) && i < |steps| && steps[i].Answer? && t in trace[i].pcs
    ensures trace[i].pcs[t].Waiting? && steps[i].r.seqNo != trace[i].pcs[t].seqNo ==> trace[i + 1] == trace[i]
    ensures trace[i].pcs[t].Woken? || trace[i].pcs[t].Numbered? ==> trace[i + 1] == trace[i]
  {
    RunKeepsInv(trace, steps, i);
    assert PcOk(trace[i], t);
  }

  /** A reply to the current request is not lost: it wakes the waiting caller. */
  lemma AnswerWakes(trace: seq<State>, steps: seq<Step>, i: nat, t: Thread)
    requires IsRun(trace, steps) && i < |steps| && steps[i].Answer? && t in trace[i].pcs
    requires trace[i].pcs[t].Waiting? && steps[i].r.seqNo == trace[i].pcs[t].seqNo
    ensures trace[i + 1].done && trace[i + 1].reply.Some? && trace[i + 1].reply.value.seqNo == trace[i].pcs[t].seqNo
    ensures Enabled(trace[i + 1], Wake(t))
  {
    RunKeepsInv(trace, steps, i);
    assert PcOk(trace[i], t);
  }
}

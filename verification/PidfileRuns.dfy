/** Runs of the pidfile protocol that are shown by building them: that the conditions of the
    safety results are needed where they are, who gets through, and who is refused. */
module PidfileRuns {
  import opened Wrappers
  import opened Pidfile

  // ---- The condition is exact: from a state where it fails, mutual exclusion fails ----

  lemma {:induction false} RunsConcat(s: State, run: seq<Action>, more: seq<Action>)
    requires Runs(s, run) && Runs(Exec(s, run), more)
    ensures Runs(s, run + more) && Exec(s, run + more) == Exec(Exec(s, run), more)
    decreases |run|
  {
    if run == [] {
      assert run + more == more;
    } else {
      RunsConcat(Apply(s, run[0]), run[1..], more);
      assert (run + more)[1..] == run[1..] + more;
    }
  }

  /** `s` with process `p` moved to `pc` and the name and locks replaced. */
  function At(s: State, p: Proc, pc: Pc, name: Option<Inode>, lock: map<Inode, Proc>): State
    requires p in s.procs
  {
    s.(name := name, lock := lock, procs := s.procs[p := s.procs[p].(pc := pc)])
  }

  /** Process `p` takes one step, from `s` to a variant of it. */
  lemma One(s: State, p: Proc, t: State) returns (run: seq<Action>)
    requires Enabled(s, Step(p)) && StepProcess(s, p) == t
    ensures Runs(s, run) && Exec(s, run) == t
  {
    run := [Step(p)];
    assert Runs(t, run[1..]) && Exec(t, run[1..]) == t;
  }

  /** open, F_GETLK and F_SETLK on a pidfile nobody else has locked. */
  lemma CheckLocks(s: State, p: Proc) returns (run: seq<Action>)
    requires Live(s, p) && s.procs[p].pc == Open && s.procs[p].ino.Some?
    requires s.name.Some? && !LockedByOther(s, s.name.value, p)
    ensures Runs(s, run) && Exec(s, run) == At(s, p, Stat(s.name.value), s.name, s.lock[s.name.value := p])
  {
    var i := s.name.value;
    var t1 := At(s, p, GetLk(i), s.name, s.lock);
    var t2 := At(t1, p, SetLk(i), s.name, s.lock);
    var t3 := At(t2, p, Stat(i), s.name, s.lock[i := p]);
    run := One(s, p, t1);
    var more := One(t1, p, t2);
    RunsConcat(s, run, more);
    run := run + more;
    more := One(t2, p, t3);
    RunsConcat(s, run, more);
    run := run + more;
    assert t3.procs == At(s, p, Stat(i), s.name, t3.lock).procs;
  }

  /** stat, unlink and fclose: the file is unlinked and the process's lock on it is gone. */
  lemma CheckDeletes(s: State, p: Proc) returns (run: seq<Action>)
    requires Live(s, p) && s.procs[p].pc.Stat? && s.procs[p].ino.Some?
    requires s.name == Some(s.procs[p].pc.fd) && Holds(s, s.name.value, p)
    ensures Runs(s, run) && Exec(s, run) == At(s, p, Link, None, s.lock - {s.name.value})
  {
    var i := s.name.value;
    var t1 := At(s, p, Unlink(i), s.name, s.lock);
    var t2 := At(t1, p, Close(i), None, s.lock);
    var t3 := At(t2, p, Link, None, s.lock - {i});
    run := One(s, p, t1);
    var more := One(t1, p, t2);
    RunsConcat(s, run, more);
    run := run + more;
    more := One(t2, p, t3);
    RunsConcat(s, run, more);
    run := run + more;
    assert t3.procs == At(s, p, Link, None, t3.lock).procs;
  }

  /** From link() on a free name to completion. */
  lemma LinkCompletes(s: State, p: Proc) returns (run: seq<Action>)
    requires Live(s, p) && s.procs[p].pc == Link && s.procs[p].ino.Some? && s.name.None? && s.procs[p].pid in s.tmp
    ensures Runs(s, run)
    ensures Exec(s, run) == At(s, p, Running, s.procs[p].ino, s.lock).(tmp := s.tmp - {s.procs[p].pid})
  {
    var t1 := At(s, p, Register, s.procs[p].ino, s.lock);
    var t2 := At(t1, p, DropTmp, s.procs[p].ino, s.lock);
    var t3 := At(t2, p, Running, s.procs[p].ino, s.lock).(tmp := s.tmp - {s.procs[p].pid});
    run := One(s, p, t1);
    var more := One(t1, p, t2);
    RunsConcat(s, run, more);
    run := run + more;
    more := One(t2, p, t3);
    RunsConcat(s, run, more);
    run := run + more;
    assert t3.procs == At(s, p, Running, t3.name, t3.lock).procs;
  }

  /** A pidfile nobody else has locked is deleted and replaced, whoever made it. */
  lemma Replaces(s: State, p: Proc) returns (run: seq<Action>)
    requires Live(s, p) && s.procs[p].pc == Open && s.procs[p].ino.Some? && s.procs[p].pid in s.tmp
    requires s.name.Some? && !LockedByOther(s, s.name.value, p)
    ensures Runs(s, run)
    ensures Exec(s, run) == At(s, p, Running, s.procs[p].ino, s.lock - {s.name.value}).(tmp := s.tmp - {s.procs[p].pid})
  {
    run := CheckLocks(s, p);
    var t1 := Exec(s, run);
    var more := CheckDeletes(t1, p);
    RunsConcat(s, run, more);
    run := run + more;
    var t2 := Exec(s, run);
    more := LinkCompletes(t2, p);
    RunsConcat(s, run, more);
    run := run + more;
    assert t2.lock == s.lock - {s.name.value};
    assert Exec(s, run).procs == At(s, p, Running, s.procs[p].ino, t2.lock).procs;
  }

  lemma Creates(s: State, q: Proc, k: Pid) returns (run: seq<Action>)
    requires Enabled(s, Start(q, k)) && k !in s.tmp
    ensures Runs(s, run)
    ensures Exec(s, run) == State(s.name, s.tmp[k := s.next], s.lock, s.text[s.next := Some(k)],
                                  s.procs[q := Process(k, Lock, Some(s.next))], s.next + 1)
  {
    var i := s.next;
    var t1 := Apply(s, Start(q, k));
    run := [Start(q, k)];
    assert Runs(t1, run[1..]) && Exec(t1, run[1..]) == t1;
    var t2 := State(s.name, s.tmp[k := i], s.lock, s.text[i := None], t1.procs[q := Process(k, Write, Some(i))], i + 1);
    var more := One(t1, q, t2);
    RunsConcat(s, run, more);
    run := run + more;
    var t3 := t2.(text := t2.text[i := Some(k)], procs := t2.procs[q := Process(k, Lock, Some(i))]);
    more := One(t2, q, t3);
    RunsConcat(s, run, more);
    run := run + more;
    assert t3.text == s.text[i := Some(k)];
    assert t3.procs == s.procs[q := Process(k, Lock, Some(i))];
  }

  /** A process with a newly written file finds the name taken. */
  lemma FindsNameTaken(s: State, q: Proc) returns (run: seq<Action>)
    requires Live(s, q) && s.procs[q].pc == Lock && s.procs[q].ino.Some? && s.name.Some?
    requires s.procs[q].ino.value !in s.lock
    ensures Runs(s, run) && Exec(s, run) == At(s, q, Open, s.name, s.lock[s.procs[q].ino.value := q])
  {
    var t1 := At(s, q, Link, s.name, s.lock[s.procs[q].ino.value := q]);
    var t2 := At(t1, q, Open, t1.name, t1.lock);
    run := One(s, q, t1);
    var more := One(t1, q, t2);
    RunsConcat(s, run, more);
    run := run + more;
    assert t2.procs == At(s, q, Open, t2.name, t2.lock).procs;
  }

  lemma BothRun(s: State, p: Proc, q: Proc, k: Pid) returns (run: seq<Action>)
    requires OpensOwnFile(s, p) && s.procs[p].pid in s.tmp && !LockedByOther(s, s.name.value, p)
    requires s.next !in s.lock && s.name.value < s.next
    requires Enabled(s, Start(q, k)) && k !in s.tmp
    ensures Runs(s, run)
    ensures var t := Exec(s, run); p != q && p in t.procs && q in t.procs && t.procs[p].pc == t.procs[q].pc == Running
  {
    run := Replaces(s, p);
    var more := Creates(Exec(s, run), q, k);
    RunsConcat(s, run, more);
    run := run + more;
    more := FindsNameTaken(Exec(s, run), q);
    RunsConcat(s, run, more);
    run := run + more;
    more := Replaces(Exec(s, run), q);
    RunsConcat(s, run, more);
    run := run + more;
  }

  /** From any state of a clean run in which a process is about to open its own file, that
      process and any newcomer can both end up running: the condition of MutualExclusion
      cannot be weakened at that step. */
  lemma OwnFileBreaksExclusion(prefix: seq<Action>, p: Proc, q: Proc, k: Pid) returns (run: seq<Action>)
    requires Runs(INIT, prefix) && Clean(INIT, prefix) && OpensOwnFile(Exec(INIT, prefix), p)
    requires Enabled(Exec(INIT, prefix), Start(q, k)) && k !in Exec(INIT, prefix).tmp
    ensures prefix <= run && Runs(INIT, run)
    ensures var t := Exec(INIT, run); p != q && p in t.procs && q in t.procs && t.procs[p].pc == t.procs[q].pc == Running
  {
    RunKeepsInv(INIT, prefix);
    var s := Exec(INIT, prefix);
    assert Live(s, p) && LocalInv(s, p);
    var more := BothRun(s, p, q, k);
    RunsConcat(INIT, prefix, more);
    run := prefix + more;
  }

  /** From any state in which a process is about to start over a leftover file that is the
      pidfile, a newcomer can get to unlink that file while the process is alive: the
      condition of StaleUnlinkSparesTheLiving cannot be weakened at that step. */
  lemma LeftoverBreaksUnlink(prefix: seq<Action>, q: Proc, p: Proc, k: Pid) returns (run: seq<Action>)
    requires Runs(INIT, prefix) && AllStartAfresh(INIT, prefix)
    requires var s := Exec(INIT, prefix); Enabled(s, Step(q)) && !StartsAfresh(s, Step(q))
    requires Enabled(Exec(INIT, prefix), Start(p, k)) && k !in Exec(INIT, prefix).tmp
    ensures prefix <= run && Runs(INIT, run)
    ensures var t := Exec(INIT, run); Live(t, p) && t.procs[p].pc.Unlink? && Live(t, q) && t.procs[q].ino.Some? && t.procs[q].ino == t.name
  {
    FreshRunKeeps(INIT, prefix);
    var s := Exec(INIT, prefix);
    var i := s.name.value;
    run := prefix;
    if i in s.lock {
      var holder := s.lock[i];
      assert Live(s, holder) && holder != q by {
        assert Holds(s, i, holder);
      }
      var t := Apply(s, Die(holder));
      var die := [Die(holder)];
      assert Runs(t, die[1..]) && Exec(t, die[1..]) == t;
      RunsConcat(INIT, run, die);
      run := run + die;
    }
    var u := Exec(INIT, run);
    assert i !in u.lock && u.name == Some(i) && u.procs[q] == s.procs[q] && u.tmp == s.tmp && u.next == s.next;
    var more := UnlinksLeftover(u, q, p, k);
    RunsConcat(INIT, run, more);
    run := run + more;
  }

  /** The leftover file is truncated by `q`; then `p` finds the name taken and nobody's lock. */
  lemma UnlinksLeftover(s: State, q: Proc, p: Proc, k: Pid) returns (run: seq<Action>)
    requires Enabled(s, Step(q)) && !StartsAfresh(s, Step(q)) && s.name.value !in s.lock && s.next !in s.lock && s.name.value < s.next
    requires Enabled(s, Start(p, k)) && k !in s.tmp
    ensures Runs(s, run)
    ensures var t := Exec(s, run); Live(t, p) && t.procs[p].pc.Unlink? && Live(t, q) && t.procs[q].ino.Some? && t.procs[q].ino == t.name
  {
    var t1 := StepProcess(s, q);
    run := One(s, q, t1);
    var more := Creates(t1, p, k);
    RunsConcat(s, run, more);
    run := run + more;
    var t2 := Exec(s, run);
    assert t2.procs[q] == t1.procs[q] && t2.lock == s.lock && t2.name == s.name;
    more := ReachesUnlink(t2, p);
    RunsConcat(s, run, more);
    run := run + more;
  }

  /** A process with a newly written file gets to unlink a pidfile nobody has locked. */
  lemma ReachesUnlink(s: State, p: Proc) returns (run: seq<Action>)
    requires Live(s, p) && s.procs[p].pc == Lock && s.procs[p].ino.Some? && s.name.Some? && s.name != s.procs[p].ino
    requires s.procs[p].ino.value !in s.lock && s.name.value !in s.lock
    ensures Runs(s, run)
    ensures var t := Exec(s, run); t.name == s.name && t.procs == s.procs[p := s.procs[p].(pc := Unlink(s.name.value))]
  {
    run := FindsNameTaken(s, p);
    var t1 := Exec(s, run);
    var more := CheckLocks(t1, p);
    RunsConcat(s, run, more);
    run := run + more;
    var t2 := Exec(s, run);
    more := One(t2, p, At(t2, p, Unlink(s.name.value), s.name, t2.lock));
    RunsConcat(s, run, more);
    run := run + more;
  }

  // ---- Progress: who gets through and who is refused ----

  /** From any state of a run in which nobody has the pidfile locked, a newcomer can get to
      running, alone: the name is free or its file is stale. */
  lemma NewcomerSucceeds(prefix: seq<Action>, q: Proc, k: Pid) returns (run: seq<Action>)
    requires Runs(INIT, prefix) && Clean(INIT, prefix)
    requires var s := Exec(INIT, prefix); Enabled(s, Start(q, k)) && k !in s.tmp && (s.name.Some? ==> s.name.value !in s.lock)
    ensures Runs(Exec(INIT, prefix), run)
    ensures var t := Exec(Exec(INIT, prefix), run); q in t.procs && t.procs[q].pc == Running && t.name == t.procs[q].ino
  {
    RunKeepsInv(INIT, prefix);
    var s := Exec(INIT, prefix);
    run := Creates(s, q, k);
    var t := Exec(s, run);
    var more;
    if s.name.None? {
      more := LocksAndLinks(t, q);
    } else {
      more := TakesOver(t, q);
    }
    RunsConcat(s, run, more);
    run := run + more;
  }

  lemma LocksAndLinks(s: State, q: Proc) returns (run: seq<Action>)
    requires Live(s, q) && s.procs[q].pc == Lock && s.procs[q].ino.Some? && s.name.None? && s.procs[q].pid in s.tmp
    requires s.procs[q].ino.value !in s.lock
    ensures Runs(s, run)
    ensures var t := Exec(s, run); q in t.procs && t.procs[q].pc == Running && t.name == t.procs[q].ino
  {
    run := One(s, q, At(s, q, Link, None, s.lock[s.procs[q].ino.value := q]));
    var more := LinkCompletes(Exec(s, run), q);
    RunsConcat(s, run, more);
    run := run + more;
  }

  lemma TakesOver(s: State, q: Proc) returns (run: seq<Action>)
    requires Live(s, q) && s.procs[q].pc == Lock && s.procs[q].ino.Some? && s.name.Some? && s.procs[q].pid in s.tmp
    requires s.procs[q].ino.value !in s.lock && s.name.value !in s.lock && s.name != s.procs[q].ino
    ensures Runs(s, run)
    ensures var t := Exec(s, run); q in t.procs && t.procs[q].pc == Running && t.name == t.procs[q].ino
  {
    run := FindsNameTaken(s, q);
    var more := Replaces(Exec(s, run), q);
    RunsConcat(s, run, more);
    run := run + more;
  }

  /** While another process has the pidfile locked, the check of a newcomer ends in giving up,
      with the name and the other's lock untouched. */
  lemma NewcomerRefused(s: State, q: Proc) returns (run: seq<Action>)
    requires Live(s, q) && s.procs[q].pc == Open && s.procs[q].ino.Some? && s.name.Some? && LockedByOther(s, s.name.value, q)
    ensures Runs(s, run) && run == [Step(q), Step(q), Step(q)]
    ensures Exec(s, run) == At(s, q, Leaving(true, false), s.name, s.lock)
  {
    var i := s.name.value;
    var t1 := At(s, q, GetLk(i), s.name, s.lock);
    var t2 := At(t1, q, Read(i), s.name, s.lock);
    var t3 := At(t2, q, Leaving(true, false), s.name, s.lock);
    run := [Step(q), Step(q), Step(q)];
    assert StepProcess(s, q) == t1 && StepProcess(t1, q) == t2 && StepProcess(t2, q) == t3;
    assert run[1..] == [Step(q), Step(q)] && run[1..][1..] == [Step(q)] && run[1..][1..][1..] == [];
    assert Runs(t3, []) && Exec(t3, []) == t3;
    assert Runs(t2, [Step(q)]) && Exec(t2, [Step(q)]) == t3;
    assert Runs(t1, [Step(q), Step(q)]) && Exec(t1, [Step(q), Step(q)]) == t3;
    assert t3.procs == At(s, q, Leaving(true, false), s.name, s.lock).procs;
  }

  // ---- A concrete run on which the condition fails ----

  const DEAD7 := Process(7, Dead, Some(0))

  /** A process binds the free name and is killed at once. */
  lemma LinksAndDies(s: State, p: Proc) returns (run: seq<Action>)
    requires Live(s, p) && s.procs[p].pc == Lock && s.procs[p].ino.Some? && s.name.None? && s.lock == map[]
    ensures Runs(s, run) && Exec(s, run) == At(s, p, Dead, s.procs[p].ino, map[])
  {
    var i := s.procs[p].ino;
    var t1 := At(s, p, Link, None, map[i.value := p]);
    run := One(s, p, t1);
    var t2 := At(t1, p, Register, i, t1.lock);
    var more := One(t1, p, t2);
    RunsConcat(s, run, more);
    run := run + more;
    var t3 := Apply(t2, Die(p));
    assert Runs(t3, [Die(p)][1..]) && Exec(t3, [Die(p)][1..]) == t3;
    RunsConcat(s, run, [Die(p)]);
    run := run + [Die(p)];
    assert t3.procs == At(s, p, Dead, i, map[]).procs && t3.lock == map[];
  }

  /** Pid 7 links its pidfile and is killed before it removes its temporary name. */
  lemma FirstDaemonKilled() returns (run: seq<Action>)
    ensures Runs(INIT, run)
    ensures Exec(INIT, run) == State(Some(0), map[7 := 0], map[], map[0 := Some(7)], map[1 := DEAD7], 1)
  {
    run := Creates(INIT, 1, 7);
    var more := LinksAndDies(Exec(INIT, run), 1);
    RunsConcat(INIT, run, more);
    run := run + more;
  }

  /** A new daemon is given pid 7 and starts over the leftover file. */
  lemma SecondDaemonStarts(s: State) returns (run: seq<Action>)
    requires s == State(Some(0), map[7 := 0], map[], map[0 := Some(7)], map[1 := DEAD7], 1)
    ensures Runs(s, run)
    ensures Exec(s, run) == s.(procs := map[1 := DEAD7, 2 := Process(7, Lock, Some(0))])
  {
    run := [Start(2, 7)];
    var t1 := Apply(s, Start(2, 7));
    assert Runs(t1, run[1..]) && Exec(t1, run[1..]) == t1;
    var t2 := State(s.name, s.tmp[7 := 0], s.lock, s.text[0 := None], t1.procs[2 := Process(7, Write, Some(0))], 1);
    var more := One(t1, 2, t2);
    RunsConcat(s, run, more);
    run := run + more;
    var t3 := t2.(text := t2.text[0 := Some(7)], procs := t2.procs[2 := Process(7, Lock, Some(0))]);
    more := One(t2, 2, t3);
    RunsConcat(s, run, more);
    run := run + more;
    assert t3.text == s.text && t3.tmp == s.tmp;
    assert t3.procs == map[1 := DEAD7, 2 := Process(7, Lock, Some(0))];
  }

  /** The second daemon opens its own file; a third one starts, and both run. */
  lemma ExclusionFailsOnPidReuse() returns (run: seq<Action>)
    ensures Runs(INIT, run)
    ensures var t := Exec(INIT, run); 2 in t.procs && 3 in t.procs && t.procs[2].pc == t.procs[3].pc == Running
  {
    run := FirstDaemonKilled();
    var more := SecondDaemonStarts(Exec(INIT, run));
    RunsConcat(INIT, run, more);
    run := run + more;
    more := FindsNameTaken(Exec(INIT, run), 2);
    RunsConcat(INIT, run, more);
    run := run + more;
    more := BothRun(Exec(INIT, run), 2, 3, 8);
    RunsConcat(INIT, run, more);
    run := run + more;
  }
}

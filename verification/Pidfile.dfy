/** The pidfile protocol of `lib/daemon.c`: any number of processes race to bind one
    file name, each with a temporary file of its own, using link(), unlink() and POSIX
    record locks.  Every system call of `make_pidfile` and `read_pidfile__` is one step
    of a transition system, and a process may also exit in an orderly way or crash
    between any two of them. */
module Pidfile {
  import opened Wrappers

  type Inode = nat
  type Pid = nat
  type Proc = nat  // one run of a daemon; the kernel may give its pid to a later run

  /** Where a process is.  `fd` is the file `read_pidfile__` has open.  `Leaving` records
      which of the two names the exit hooks still have to unlink. */
  datatype Pc =
    | Create | Write | Lock | Link
    | Open | GetLk(fd: Inode) | SetLk(fd: Inode) | Stat(fd: Inode) | Unlink(fd: Inode) | Close(fd: Inode)
    | Read(fd: Inode)
    | Register | DropTmp | Running
    | Leaving(tmp: bool, pidfile: bool)
    | Dead

  datatype Process = Process(pid: Pid, pc: Pc, ino: Option<Inode>)

  datatype State = State(
    name: Option<Inode>,               // what the pidfile name is bound to
    tmp: map<Pid, Inode>,              // the temporary names "<pidfile>.tmp<pid>"
    lock: map<Inode, Proc>,            // the holder of the write lock on each file
    text: map<Inode, Option<Pid>>,     // the pid written in each file
    procs: map<Proc, Process>,
    next: Inode)                       // every inode in use is below this

  datatype Action =
    | Start(p: Proc, pid: Pid)  // a daemon starts under a pid no live process has
    | Step(p: Proc)             // the next system call of make_pidfile
    | Exit(p: Proc)             // exit() or a handled signal: the unlink hooks will run
    | HookTmp(p: Proc)          // a hook unlinks the temporary name
    | HookPidfile(p: Proc)      // a hook unlinks the pidfile name
    | Die(p: Proc)              // the process is gone; the kernel drops its locks

  const INIT := State(None, map[], map[], map[], map[], 0)

  predicate Live(s: State, p: Proc) {
    p in s.procs && s.procs[p].pc != Dead
  }

  predicate Enabled(s: State, a: Action) {
    match a
    case Start(p, pid) => p !in s.procs && forall q | q in s.procs && Live(s, q) :: s.procs[q].pid != pid
    case Step(p) => Live(s, p) && !s.procs[p].pc.Leaving? && s.procs[p].pc != Running && (s.procs[p].pc != Create ==> s.procs[p].ino.Some?)
    case Exit(p) => Live(s, p) && !s.procs[p].pc.Leaving?
    case HookTmp(p) => Live(s, p) && s.procs[p].pc.Leaving? && s.procs[p].pc.tmp
    case HookPidfile(p) => Live(s, p) && s.procs[p].pc.Leaving? && s.procs[p].pc.pidfile
    case Die(p) => Live(s, p)
  }

  function Goto(s: State, p: Proc, pc: Pc): State
    requires p in s.procs
  {
    s.(procs := s.procs[p := s.procs[p].(pc := pc)])
  }

  /** Closing any descriptor of a file drops every lock the process holds on that file. */
  function Fclose(s: State, p: Proc, fd: Inode): State {
    if fd in s.lock && s.lock[fd] == p then s.(lock := s.lock - {fd}) else s
  }

  /** A failed check closes the descriptor and ends in VLOG_FATAL. */
  function Abort(s: State, p: Proc, fd: Inode): State
    requires p in s.procs
  {
    Goto(Fclose(s, p, fd), p, Leaving(true, false))
  }

  predicate LockedByOther(s: State, i: Inode, p: Proc) {
    i in s.lock && s.lock[i] != p
  }

  function StepProcess(s: State, p: Proc): State
    requires Enabled(s, Step(p))
  {
    var me := s.procs[p];
    match me.pc
    case Create =>
      // fopen(tmpfile, "w+") truncates a file left behind under the same name.
      var i := if me.pid in s.tmp then s.tmp[me.pid] else s.next;
      State(s.name, s.tmp[me.pid := i], s.lock, s.text[i := None],
            s.procs[p := Process(me.pid, Write, Some(i))],
            if me.pid in s.tmp then s.next else s.next + 1)
    case Write => Goto(s.(text := s.text[me.ino.value := Some(me.pid)]), p, Lock)
    case Lock =>
      if LockedByOther(s, me.ino.value, p) then Goto(s, p, Leaving(true, false))
      else Goto(s.(lock := s.lock[me.ino.value := p]), p, Link)
    case Link =>
      if s.name.None? then Goto(s.(name := me.ino), p, Register) else Goto(s, p, Open)
    case Open =>
      if s.name.None? then Goto(s, p, Link) else Goto(s, p, GetLk(s.name.value))
    case GetLk(fd) =>
      if LockedByOther(s, fd, p) then Goto(s, p, Read(fd)) else Goto(s, p, SetLk(fd))
    case SetLk(fd) =>
      if LockedByOther(s, fd, p) then Abort(s, p, fd)
      else Goto(s.(lock := s.lock[fd := p]), p, Stat(fd))
    case Stat(fd) => if s.name == Some(fd) then Goto(s, p, Unlink(fd)) else Abort(s, p, fd)
    case Unlink(fd) => if s.name.None? then Abort(s, p, fd) else Goto(s.(name := None), p, Close(fd))
    case Close(fd) => Goto(Fclose(s, p, fd), p, Link)
    case Read(fd) => Abort(s, p, fd)  // whatever pid is read, the caller gives up
    case Register => Goto(s, p, DropTmp)
    case DropTmp =>
      if me.pid in s.tmp then Goto(s.(tmp := s.tmp - {me.pid}), p, Running)
      else Goto(s, p, Leaving(false, true))
  }

  /** Which names the exit hooks know about at each point. */
  function Hooks(pc: Pc): Pc {
    Leaving(pc != Running, pc == DropTmp || pc == Running)
  }

  function Apply(s: State, a: Action): State
    requires Enabled(s, a)
  {
    match a
    case Start(p, pid) => s.(procs := s.procs[p := Process(pid, Create, None)])
    case Step(p) => StepProcess(s, p)
    case Exit(p) => Goto(s, p, Hooks(s.procs[p].pc))
    case HookTmp(p) => Goto(s.(tmp := s.tmp - {s.procs[p].pid}), p, s.procs[p].pc.(tmp := false))
    case HookPidfile(p) => Goto(s.(name := None), p, s.procs[p].pc.(pidfile := false))
    case Die(p) => Goto(s.(lock := map i | i in s.lock && s.lock[i] != p :: s.lock[i]), p, Dead)
  }

  /** `run` is a possible interleaving from `s`. */
  predicate Runs(s: State, run: seq<Action>)
    decreases |run|
  {
    run == [] || (Enabled(s, run[0]) && Runs(Apply(s, run[0]), run[1..]))
  }

  function Exec(s: State, run: seq<Action>): State
    requires Runs(s, run)
    decreases |run|
  {
    if run == [] then s else Exec(Apply(s, run[0]), run[1..])
  }

  /** The step that matters: a process opens the pidfile and gets its own temporary file. */
  predicate OpensOwnFile(s: State, p: Proc) {
    p in s.procs && s.procs[p].pc == Open && s.name.Some? && s.name == s.procs[p].ino
  }

  /** No process ever opens its own file along the run. */
  predicate Clean(s: State, run: seq<Action>)
    requires Runs(s, run)
    decreases |run|
  {
    run == [] || ((run[0].Step? ==> !OpensOwnFile(s, run[0].p)) && Clean(Apply(s, run[0]), run[1..]))
  }

  // ---- What every clean run keeps ----

  /** The process has locked its file and still relies on that lock. */
  predicate Owns(pc: Pc) {
    pc.Link? || pc.Open? || HasFd(pc) || Published(pc)
  }

  predicate HasFd(pc: Pc) {
    pc.GetLk? || pc.SetLk? || pc.Stat? || pc.Unlink? || pc.Close? || pc.Read?
  }

  predicate HoldsFd(pc: Pc) {
    pc.Stat? || pc.Unlink? || pc.Close?
  }

  /** The process has bound the name and has not yet given it up. */
  predicate Published(pc: Pc) {
    pc.Register? || pc.DropTmp? || pc.Running? || (pc.Leaving? && pc.pidfile)
  }

  predicate Holds(s: State, i: Inode, p: Proc) {
    i in s.lock && s.lock[i] == p
  }

  predicate LocalInv(s: State, p: Proc)
    requires p in s.procs
  {
    var me := s.procs[p];
    && (me.ino.Some? ==> me.ino.value < s.next)
    && (me.pc == Create ==> me.ino.None?)
    && (me.pc != Create && !me.pc.Leaving? ==> me.ino.Some?)
    && (Owns(me.pc) ==> me.ino.Some? && Holds(s, me.ino.value, p)
                        && me.ino.value in s.text && s.text[me.ino.value] == Some(me.pid))
    && (me.pc == Lock ==> me.ino.value in s.text && s.text[me.ino.value] == Some(me.pid))
    && (Published(me.pc) ==> s.name == me.ino)
    && (HasFd(me.pc) ==> Some(me.pc.fd) != me.ino && me.pc.fd < s.next)
    && (HoldsFd(me.pc) ==> Holds(s, me.pc.fd, p))
    && (me.pc.Unlink? ==> s.name == Some(me.pc.fd))
  }

  predicate HasTmp(pc: Pc) {
    Unpublished(pc) || pc.Register? || pc.DropTmp?
  }

  predicate Unpublished(pc: Pc) {
    pc.Write? || pc.Lock? || pc.Link? || pc.Open? || HasFd(pc)
  }

  /** Files belong to pids: live processes have distinct pids, distinct files, and a
      temporary name only ever leads to a file of its own pid. */
  ghost predicate FilesApart(s: State) {
    DistinctFiles(s) && DistinctNames(s) && NamesLeadHome(s)
  }

  ghost predicate DistinctFiles(s: State) {
    forall p, q | Live(s, p) && Live(s, q) && p != q ::
      s.procs[p].pid != s.procs[q].pid
      && (s.procs[p].ino.Some? ==> s.procs[p].ino != s.procs[q].ino)
  }

  ghost predicate DistinctNames(s: State) {
    && (forall k | k in s.tmp :: s.tmp[k] < s.next)
    && (forall k, l | k in s.tmp && l in s.tmp && k != l :: s.tmp[k] != s.tmp[l])
  }

  ghost predicate NamesLeadHome(s: State) {
    && (forall k, p | k in s.tmp && Live(s, p) && s.procs[p].ino == Some(s.tmp[k]) :: s.procs[p].pid == k)
    && (forall p | Live(s, p) && HasTmp(s.procs[p].pc) :: s.procs[p].pid in s.tmp && s.procs[p].ino == Some(s.tmp[s.procs[p].pid]))
  }

  ghost predicate Inv(s: State) {
    && (forall p | Live(s, p) :: LocalInv(s, p))
    && FilesApart(s)
    && (forall i | i in s.lock :: Live(s, s.lock[i]) && i < s.next)
    && (s.name.Some? ==> s.name.value < s.next)
  }

  // ---- The effect of one step on everything its own process does not hold ----

  /** From `s` to `t` only process `p`, its locks and the text of its file changed; and the
      name was bound only when free, to p's file, or unbound only by the holder of the
      lock on the file it named. */
  ghost predicate LocalEffect(s: State, t: State, p: Proc) {
    OnlyProcess(s, t, p) && OnlyOwnLocks(s, t, p) && OnlyOwnText(s, t, p) && NameEffect(s, t, p)
  }

  ghost predicate OnlyProcess(s: State, t: State, p: Proc) {
    t.next >= s.next && p in t.procs && t.procs == s.procs[p := t.procs[p]]
  }

  ghost predicate OnlyOwnLocks(s: State, t: State, p: Proc) {
    forall i, q | q != p :: Holds(t, i, q) <==> Holds(s, i, q)
  }

  ghost predicate OnlyOwnText(s: State, t: State, p: Proc) {
    p in t.procs && forall i | i in s.text && Some(i) != t.procs[p].ino :: i in t.text && t.text[i] == s.text[i]
  }

  ghost predicate NameEffect(s: State, t: State, p: Proc) {
    || t.name == s.name
    || (p in t.procs && s.name.None? && t.name == t.procs[p].ino)
    || (t.name.None? && s.name.Some? && Holds(s, s.name.value, p))
  }

  /** p's file and temporary name either stay, or p has just opened its temporary file,
      which is new unless the name was left behind. */
  ghost predicate FileEffect(s: State, t: State, p: Proc) {
    && p in t.procs
    && (p in s.procs ==> t.procs[p].pid == s.procs[p].pid)
    && (if p !in s.procs then t.procs[p].ino.None? && t.tmp == s.tmp && forall q | Live(s, q) :: s.procs[q].pid != t.procs[p].pid
        else if t.procs[p].ino == s.procs[p].ino then t.tmp == s.tmp || t.tmp == s.tmp - {t.procs[p].pid}
        else
          var k := t.procs[p].pid;
          t.procs[p].ino.Some? && t.tmp == s.tmp[k := t.procs[p].ino.value]
          && if k in s.tmp then t.procs[p].ino == Some(s.tmp[k]) else t.procs[p].ino == Some(s.next) && t.next > s.next)
    && (HasTmp(t.procs[p].pc) ==> p in s.procs && t.procs[p].ino.Some? && (s.procs[p].pc == Create || (HasTmp(s.procs[p].pc) && t.tmp == s.tmp)))
  }

  lemma StepProcessOnly(s: State, a: Action)
    requires Enabled(s, a)
    ensures OnlyProcess(s, Apply(s, a), a.p)
  {
    if a.Step? && s.procs[a.p].pc == Create {
      var me := s.procs[a.p];
      assert Apply(s, a).procs == s.procs[a.p := Process(me.pid, Write, Apply(s, a).procs[a.p].ino)];
    }
  }

  lemma StepLocks(s: State, a: Action)
    requires Enabled(s, a)
    ensures OnlyOwnLocks(s, Apply(s, a), a.p)
  {
  }

  lemma StepText(s: State, a: Action)
    requires Enabled(s, a)
    ensures OnlyOwnText(s, Apply(s, a), a.p)
  {
  }

  lemma StepName(s: State, a: Action)
    requires Enabled(s, a) && (a.p in s.procs ==> LocalInv(s, a.p))
    ensures NameEffect(s, Apply(s, a), a.p)
  {
  }

  lemma StepFiles(s: State, p: Proc)
    requires Enabled(s, Step(p)) && LocalInv(s, p)
    ensures FileEffect(s, StepProcess(s, p), p)
  {
  }

  lemma StepEffects(s: State, a: Action)
    requires Enabled(s, a) && (a.p in s.procs ==> LocalInv(s, a.p))
    ensures LocalEffect(s, Apply(s, a), a.p) && FileEffect(s, Apply(s, a), a.p)
  {
    StepProcessOnly(s, a);
    StepLocks(s, a);
    StepText(s, a);
    StepName(s, a);
    if a.Step? {
      StepFiles(s, a.p);
    }
  }

  /** A process's own step re-establishes what it relies on at its next program point. */
  lemma OwnStepKeeps(s: State, p: Proc)
    requires Enabled(s, Step(p)) && LocalInv(s, p)
    requires (forall k | k in s.tmp :: s.tmp[k] < s.next) && (s.name.Some? ==> s.name.value < s.next)
    requires !OpensOwnFile(s, p)
    ensures LocalInv(StepProcess(s, p), p)
  {
    if HasFd(s.procs[p].pc) {
      CheckStepKeeps(s, p);
    }
  }

  lemma CheckStepKeeps(s: State, p: Proc)
    requires Enabled(s, Step(p)) && LocalInv(s, p) && HasFd(s.procs[p].pc)
    ensures LocalInv(StepProcess(s, p), p)
  {
  }

  lemma OwnActionKeeps(s: State, a: Action)
    requires Enabled(s, a) && a.p in s.procs && LocalInv(s, a.p)
    requires (forall k | k in s.tmp :: s.tmp[k] < s.next) && (s.name.Some? ==> s.name.value < s.next)
    requires a.Step? ==> !OpensOwnFile(s, a.p)
    ensures Live(Apply(s, a), a.p) ==> LocalInv(Apply(s, a), a.p)
  {
    if a.Step? {
      OwnStepKeeps(s, a.p);
    }
  }

  /** Interference freedom: what `q` relies on survives every step of another process. */
  lemma OtherStepKeeps(s: State, t: State, p: Proc, q: Proc)
    requires LocalEffect(s, t, p) && Live(s, q) && q != p && LocalInv(s, q)
    requires t.procs[p].ino.Some? ==> t.procs[p].ino != s.procs[q].ino
    ensures LocalInv(t, q)
  {
  }

  lemma DistinctFilesKept(s: State, t: State, p: Proc)
    requires FilesApart(s) && FileEffect(s, t, p) && OnlyProcess(s, t, p)
    requires forall q | Live(s, q) :: s.procs[q].ino.Some? ==> s.procs[q].ino.value < s.next
    requires p in s.procs ==> Live(s, p)
    ensures DistinctFiles(t)
  {
    assert forall q | Live(t, q) && q != p :: Live(s, q) && t.procs[q] == s.procs[q];
  }

  lemma DistinctNamesKept(s: State, t: State, p: Proc)
    requires DistinctNames(s) && FileEffect(s, t, p) && t.next >= s.next
    ensures DistinctNames(t)
  {
  }

  lemma NamesLeadHomeKept(s: State, t: State, p: Proc)
    requires FilesApart(s) && FileEffect(s, t, p) && OnlyProcess(s, t, p)
    requires forall q | Live(s, q) :: s.procs[q].ino.Some? ==> s.procs[q].ino.value < s.next
    requires p in s.procs ==> Live(s, p) && (s.procs[p].pc == Create ==> s.procs[p].ino.None?)
    ensures NamesLeadHome(t)
  {
    assert forall q | Live(t, q) && q != p :: Live(s, q) && t.procs[q] == s.procs[q];
  }

  lemma FilesApartKept(s: State, t: State, p: Proc)
    requires FilesApart(s) && FileEffect(s, t, p) && OnlyProcess(s, t, p)
    requires forall q | Live(s, q) :: LocalInv(s, q)
    requires p in s.procs ==> Live(s, p)
    ensures FilesApart(t)
  {
    DistinctFilesKept(s, t, p);
    DistinctNamesKept(s, t, p);
    NamesLeadHomeKept(s, t, p);
  }

  /** Locks die with their holder, and only a live process takes one. */
  lemma OwnLocksKept(s: State, a: Action)
    requires Enabled(s, a) && (a.p in s.procs ==> LocalInv(s, a.p))
    requires forall i: Inode | Holds(s, i, a.p) :: i < s.next && !a.Start?
    ensures var t := Apply(s, a); forall i: Inode | Holds(t, i, a.p) :: Live(t, a.p) && i < t.next
  {
    var t := Apply(s, a);
    forall i: Inode | Holds(t, i, a.p) ensures Live(t, a.p) && i < t.next {
      assert Holds(s, i, a.p) || (a.Step? && LocalInv(s, a.p));
    }
  }

  lemma LocksKept(s: State, t: State, p: Proc)
    requires forall i | i in s.lock :: Live(s, s.lock[i]) && i < s.next
    requires OnlyProcess(s, t, p) && OnlyOwnLocks(s, t, p)
    requires forall i: Inode | Holds(t, i, p) :: Live(t, p) && i < t.next
    ensures forall i | i in t.lock :: Live(t, t.lock[i]) && i < t.next
  {
    forall i | i in t.lock ensures Live(t, t.lock[i]) && i < t.next {
      assert Holds(t, i, t.lock[i]);
      assert t.lock[i] != p ==> Holds(s, i, t.lock[i]);
    }
  }

  lemma NameBelowNext(s: State, a: Action)
    requires Enabled(s, a) && (a.p in s.procs ==> LocalInv(s, a.p))
    requires s.name.Some? ==> s.name.value < s.next
    ensures var t := Apply(s, a); t.name.Some? ==> t.name.value < t.next
  {
  }

  lemma OthersKept(s: State, t: State, p: Proc)
    requires Inv(s) && LocalEffect(s, t, p) && FileEffect(s, t, p) && (p in s.procs ==> Live(s, p))
    ensures forall q | Live(t, q) && q != p :: LocalInv(t, q)
  {
    forall q | Live(t, q) && q != p ensures LocalInv(t, q) {
      assert Live(s, q) && LocalInv(s, q);
      OtherStepKeeps(s, t, p, q);
    }
  }

  lemma InvKept(s: State, a: Action)
    requires Inv(s) && Enabled(s, a)
    requires a.Step? ==> !OpensOwnFile(s, a.p)
    ensures Inv(Apply(s, a))
  {
    StepEffects(s, a);
    FilesApartKept(s, Apply(s, a), a.p);
    OthersKept(s, Apply(s, a), a.p);
    OwnLocksKept(s, a);
    LocksKept(s, Apply(s, a), a.p);
    NameBelowNext(s, a);
    if !a.Start? {
      OwnActionKeeps(s, a);
    }
  }

  lemma {:induction false} RunKeepsInv(s: State, run: seq<Action>)
    requires Inv(s) && Runs(s, run) && Clean(s, run)
    ensures Inv(Exec(s, run))
    decreases |run|
  {
    if run != [] {
      InvKept(s, run[0]);
      RunKeepsInv(Apply(s, run[0]), run[1..]);
    }
  }

  // ---- Safety over whole runs ----

  /** At most one live process has completed make_pidfile; and the pidfile names it: the
      name is bound to its file, the file is locked by it and holds its pid. */
  lemma MutualExclusion(run: seq<Action>, p: Proc, q: Proc)
    requires Runs(INIT, run) && Clean(INIT, run)
    requires var s := Exec(INIT, run); p in s.procs && q in s.procs && s.procs[p].pc == s.procs[q].pc == Running
    ensures p == q
    ensures var s := Exec(INIT, run);
            && s.name.Some? && Holds(s, s.name.value, p)
            && s.name.value in s.text && s.text[s.name.value] == Some(s.procs[p].pid)
  {
    RunKeepsInv(INIT, run);
    var s := Exec(INIT, run);
    assert Live(s, p) && Live(s, q) && LocalInv(s, p) && LocalInv(s, q);
  }

  /** When a process is about to unlink a stale pidfile, the name is still bound to the
      very file it checked, and no live process that has locked its own file made that file. */
  lemma StaleUnlinkSparesOwners(run: seq<Action>, p: Proc, q: Proc)
    requires Runs(INIT, run) && Clean(INIT, run)
    requires var s := Exec(INIT, run); p in s.procs && s.procs[p].pc.Unlink? && Live(s, q) && Owns(s.procs[q].pc)
    ensures var s := Exec(INIT, run); s.name == Some(s.procs[p].pc.fd) && s.procs[q].ino != s.name
  {
    RunKeepsInv(INIT, run);
    var s := Exec(INIT, run);
    assert Live(s, p) && LocalInv(s, p) && LocalInv(s, q);
  }

  /** An exit hook that unlinks the pidfile name removes the process's own binding, and
      nothing else changes. */
  lemma HookUnlinksOwnName(run: seq<Action>, p: Proc)
    requires Runs(INIT, run) && Clean(INIT, run) && Enabled(Exec(INIT, run), HookPidfile(p))
    ensures var (s, t) := (Exec(INIT, run), Apply(Exec(INIT, run), HookPidfile(p)));
            && s.name.Some? && s.name == s.procs[p].ino
            && t == s.(name := None, procs := t.procs) && t.procs == s.procs[p := s.procs[p].(pc := Leaving(s.procs[p].pc.tmp, false))]
  {
    RunKeepsInv(INIT, run);
    assert LocalInv(Exec(INIT, run), p);
  }

  /** A process that has bound the pidfile for good, or has just registered the hook, leaves
      with the hook armed. */
  lemma ExitArmsHook(s: State, p: Proc)
    requires Live(s, p) && (s.procs[p].pc == Running || s.procs[p].pc == DropTmp)
    ensures Enabled(s, Exit(p)) && Enabled(Apply(s, Exit(p)), HookPidfile(p))
    ensures s.procs[p].pc == DropTmp ==> Enabled(Apply(s, Exit(p)), HookTmp(p))
  {
  }

  // ---- What a process leaves behind ----

  /** The process has no temporary name any more. */
  predicate TmpDropped(pc: Pc) {
    pc.Running? || (pc.Leaving? && !pc.tmp)
  }

  predicate NoTmpFor(s: State, i: Inode) {
    forall k | k in s.tmp :: s.tmp[k] != i
  }

  ghost predicate NoTmpLeft(s: State) {
    forall p | Live(s, p) && TmpDropped(s.procs[p].pc) && s.procs[p].ino.Some? :: NoTmpFor(s, s.procs[p].ino.value)
  }

  lemma OwnTmpDropped(s: State, a: Action)
    requires Inv(s) && NoTmpLeft(s) && Enabled(s, a) && a.p in s.procs
    ensures var t := Apply(s, a);
            Live(t, a.p) && TmpDropped(t.procs[a.p].pc) && t.procs[a.p].ino.Some? ==> NoTmpFor(t, t.procs[a.p].ino.value)
  {
    assert LocalInv(s, a.p);
    assert NamesLeadHome(s);
  }

  lemma NoTmpLeftKept(s: State, a: Action)
    requires Inv(s) && NoTmpLeft(s) && Enabled(s, a)
    ensures NoTmpLeft(Apply(s, a))
  {
    StepEffects(s, a);
    var t := Apply(s, a);
    if a.p in s.procs {
      OwnTmpDropped(s, a);
    }
    forall q | Live(t, q) && q != a.p && TmpDropped(t.procs[q].pc) && t.procs[q].ino.Some?
      ensures NoTmpFor(t, t.procs[q].ino.value)
    {
      assert Live(s, q) && s.procs[q] == t.procs[q] && LocalInv(s, q) && NoTmpFor(s, s.procs[q].ino.value);
    }
  }

  /** `p` is on its way out and the pidfile, if it is its file, will be unlinked. */
  predicate OnTheWayOut(s: State, p: Proc, i: Inode) {
    p in s.procs && s.procs[p].ino == Some(i) && s.procs[p].pc.Leaving? && (s.procs[p].pc.pidfile || s.name != Some(i))
  }

  lemma OutKept(s: State, a: Action, p: Proc, i: Inode)
    requires Enabled(s, a) && Inv(s) && Inv(Apply(s, a)) && OnTheWayOut(s, p, i) && Live(Apply(s, a), p)
    ensures OnTheWayOut(Apply(s, a), p, i)
  {
    StepEffects(s, a);
    BinderLives(s, a);
    var t := Apply(s, a);
    assert Live(s, p) && LocalInv(s, p) && LocalInv(t, p);
    assert DistinctFiles(t);
  }

  /** `p` is on its way out or gone. */
  predicate OutOrDead(s: State, p: Proc, i: Inode) {
    OnTheWayOut(s, p, i) || (p in s.procs && s.procs[p].pc == Dead)
  }

  lemma OutOrDeadKept(s: State, a: Action, p: Proc, i: Inode)
    requires Enabled(s, a) && Inv(s) && Inv(Apply(s, a)) && OutOrDead(s, p, i)
    ensures OutOrDead(Apply(s, a), p, i)
  {
    StepProcessOnly(s, a);
    if OnTheWayOut(s, p, i) && Live(Apply(s, a), p) {
      OutKept(s, a, p, i);
    }
  }

  lemma {:induction false} OutStaysOut(s: State, run: seq<Action>, p: Proc, i: Inode)
    requires Inv(s) && Runs(s, run) && Clean(s, run) && OutOrDead(s, p, i)
    ensures OutOrDead(Exec(s, run), p, i)
    decreases |run|
  {
    if run != [] {
      InvKept(s, run[0]);
      OutOrDeadKept(s, run[0], p, i);
      OutStaysOut(Apply(s, run[0]), run[1..], p, i);
    }
  }

  lemma {:induction false} RunKeepsNoTmp(s: State, run: seq<Action>)
    requires Inv(s) && NoTmpLeft(s) && Runs(s, run) && Clean(s, run)
    ensures Inv(Exec(s, run)) && NoTmpLeft(Exec(s, run))
    decreases |run|
  {
    if run != [] {
      InvKept(s, run[0]);
      NoTmpLeftKept(s, run[0]);
      RunKeepsNoTmp(Apply(s, run[0]), run[1..]);
    }
  }

  /** A process that exits after binding the pidfile, and whose hooks have run, leaves neither
      the pidfile nor a temporary name behind that leads to its file, whatever the others did
      in between. */
  lemma HooksLeaveNothing(prefix: seq<Action>, p: Proc, rest: seq<Action>)
    requires Runs(INIT, prefix) && Clean(INIT, prefix)
    requires var s := Exec(INIT, prefix); Live(s, p) && (s.procs[p].pc == Running || s.procs[p].pc == DropTmp)
    requires var t := Apply(Exec(INIT, prefix), Exit(p)); Runs(t, rest) && Clean(t, rest)
    ensures var s := Exec(INIT, prefix); var t := Exec(Apply(s, Exit(p)), rest);
            Live(t, p) && t.procs[p].pc == Leaving(false, false) ==>
              s.procs[p].ino.Some? && t.name != s.procs[p].ino && NoTmpFor(t, s.procs[p].ino.value)
  {
    RunKeepsNoTmp(INIT, prefix);
    var s := Exec(INIT, prefix);
    assert LocalInv(s, p);
    InvKept(s, Exit(p));
    NoTmpLeftKept(s, Exit(p));
    RunKeepsNoTmp(Apply(s, Exit(p)), rest);
    OutStaysOut(Apply(s, Exit(p)), rest, p, s.procs[p].ino.value);
  }

  // ---- A condition on how processes start that makes every run clean ----

  /** A process starts afresh unless a file left under its temporary name is also the pidfile. */
  predicate StartsAfresh(s: State, a: Action) {
    a.Step? && a.p in s.procs && s.procs[a.p].pc == Create && s.procs[a.p].pid in s.tmp
    ==> s.name != Some(s.tmp[s.procs[a.p].pid])
  }

  predicate AllStartAfresh(s: State, run: seq<Action>)
    requires Runs(s, run)
    decreases |run|
  {
    run == [] || (StartsAfresh(s, run[0]) && AllStartAfresh(Apply(s, run[0]), run[1..]))
  }

  ghost predicate NameApart(s: State) {
    forall p | Live(s, p) && Unpublished(s.procs[p].pc) :: s.procs[p].ino.Some? && s.name != s.procs[p].ino
  }

  lemma OwnNameApart(s: State, p: Proc)
    requires Enabled(s, Step(p)) && StartsAfresh(s, Step(p)) && LocalInv(s, p)
    requires Unpublished(s.procs[p].pc) ==> s.name != s.procs[p].ino
    requires s.name.Some? ==> s.name.value < s.next
    ensures var t := StepProcess(s, p); Unpublished(t.procs[p].pc) ==> t.procs[p].ino.Some? && t.name != t.procs[p].ino
  {
  }

  lemma OthersNameApart(s: State, t: State, p: Proc)
    requires Inv(s) && NameApart(s) && LocalEffect(s, t, p) && FileEffect(s, t, p) && (p in s.procs ==> Live(s, p))
    ensures forall q | Live(t, q) && q != p && Unpublished(t.procs[q].pc) :: t.procs[q].ino.Some? && t.name != t.procs[q].ino
  {
    FilesApartKept(s, t, p);
    assert forall q | Live(t, q) && q != p :: Live(s, q) && LocalInv(s, q) && t.procs[q] == s.procs[q];
  }

  lemma NameApartKept(s: State, a: Action)
    requires Inv(s) && NameApart(s) && Enabled(s, a) && StartsAfresh(s, a)
    ensures NameApart(Apply(s, a))
  {
    StepEffects(s, a);
    OthersNameApart(s, Apply(s, a), a.p);
    if a.Step? {
      OwnNameApart(s, a.p);
    }
  }

  /** If no process starts over a leftover temporary file that is still linked as the
      pidfile, no process ever opens its own file. */
  lemma {:induction false} FreshStartsAreClean(s: State, run: seq<Action>)
    requires Runs(s, run) && AllStartAfresh(s, run)
    requires Inv(s) && NameApart(s)
    ensures Clean(s, run)
    decreases |run|
  {
    if run != [] {
      InvKept(s, run[0]);
      NameApartKept(s, run[0]);
      FreshStartsAreClean(Apply(s, run[0]), run[1..]);
    }
  }

  // ---- What such runs keep besides: the pidfile of a live process is locked by it ----

  ghost predicate NameHeld(s: State) {
    forall q | Live(s, q) && s.procs[q].ino.Some? && s.procs[q].ino == s.name :: Holds(s, s.name.value, q)
  }

  ghost predicate NoLockAtCreate(s: State) {
    forall q | Live(s, q) && s.procs[q].pc == Create :: forall i: Inode :: !Holds(s, i, q)
  }

  ghost predicate FreshInv(s: State) {
    Inv(s) && NameApart(s) && NameHeld(s) && NoLockAtCreate(s)
  }

  lemma OthersNameHeld(s: State, t: State, p: Proc)
    requires Inv(s) && NameHeld(s) && LocalEffect(s, t, p) && FilesApart(t) && (p in s.procs ==> Live(s, p))
    requires t.name.Some? && t.name != s.name ==> Live(t, p)
    ensures forall q | Live(t, q) && q != p && t.procs[q].ino.Some? && t.procs[q].ino == t.name :: Holds(t, t.name.value, q)
  {
    forall q | Live(t, q) && q != p && t.procs[q].ino.Some? && t.procs[q].ino == t.name ensures Holds(t, t.name.value, q) {
      assert Live(s, q) && t.procs[q] == s.procs[q] && LocalInv(s, q);
    }
  }

  lemma BinderLives(s: State, a: Action)
    requires Enabled(s, a)
    ensures var t := Apply(s, a); t.name.Some? && t.name != s.name ==> Live(t, a.p)
  {
  }

  lemma OwnNameHeld(s: State, p: Proc)
    requires Enabled(s, Step(p)) && StartsAfresh(s, Step(p)) && LocalInv(s, p) && (s.name.Some? ==> s.name.value < s.next)
    requires Unpublished(s.procs[p].pc) ==> s.name != s.procs[p].ino
    requires s.procs[p].ino.Some? && s.procs[p].ino == s.name ==> Holds(s, s.name.value, p)
    ensures var t := StepProcess(s, p); t.procs[p].ino.Some? && t.procs[p].ino == t.name ==> Holds(t, t.name.value, p)
  {
  }

  lemma CreateHoldsNothing(s: State, a: Action)
    requires Inv(s) && NoLockAtCreate(s) && Enabled(s, a)
    ensures NoLockAtCreate(Apply(s, a))
  {
    StepLocks(s, a);
    StepProcessOnly(s, a);
    var t := Apply(s, a);
    forall q | Live(t, q) && t.procs[q].pc == Create ensures forall i: Inode :: !Holds(t, i, q) {
      if q != a.p {
        assert Live(s, q) && s.procs[q] == t.procs[q];
      } else {
        assert a.Start?;
      }
    }
  }

  lemma NameHeldKept(s: State, a: Action)
    requires Inv(s) && NameApart(s) && NameHeld(s) && Enabled(s, a) && StartsAfresh(s, a)
    ensures NameHeld(Apply(s, a))
  {
    StepEffects(s, a);
    FilesApartKept(s, Apply(s, a), a.p);
    BinderLives(s, a);
    OthersNameHeld(s, Apply(s, a), a.p);
    if a.Step? {
      OwnNameHeld(s, a.p);
    }
  }

  lemma {:induction false} FreshRunKeeps(s: State, run: seq<Action>)
    requires FreshInv(s) && Runs(s, run) && AllStartAfresh(s, run)
    ensures FreshInv(Exec(s, run))
    decreases |run|
  {
    if run != [] {
      FreshStartsAreClean(s, run);
      InvKept(s, run[0]);
      NameApartKept(s, run[0]);
      NameHeldKept(s, run[0]);
      CreateHoldsNothing(s, run[0]);
      FreshRunKeeps(Apply(s, run[0]), run[1..]);
    }
  }

  /** When a process is about to unlink a stale pidfile, the name is still bound to the very
      file it checked, and whoever made that file is not alive any more. */
  lemma StaleUnlinkSparesTheLiving(run: seq<Action>, p: Proc, q: Proc)
    requires Runs(INIT, run) && AllStartAfresh(INIT, run)
    requires var s := Exec(INIT, run); Live(s, p) && s.procs[p].pc.Unlink? && Live(s, q)
    ensures var s := Exec(INIT, run); s.name == Some(s.procs[p].pc.fd) && s.procs[q].ino != s.name
  {
    FreshRunKeeps(INIT, run);
    var s := Exec(INIT, run);
    assert LocalInv(s, p) && LocalInv(s, q);
  }
}

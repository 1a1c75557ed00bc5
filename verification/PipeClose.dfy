/**
 * Detecting that the other end of a pipe is closed (_pipe_is_closed of user/lib/pipe.c) while other
 * envs dup and close descriptors (user/lib/fd.c). Each system call and each load is one step; an env
 * acts only while it is the running one.
 */
module PipeClose {

  datatype End = ReadEnd | WriteEnd

  // Descriptor number n of an env; its fd page and its data page are mapped independently.
  datatype Slot = Slot(env: nat, n: nat)

  // Where an env stands between its steps.
  datatype Pc =
    | Idle
    | CloseFd(n: nat)                    // pipe_close: unmap the fd page
    | CloseData(n: nat)                  // then the data page
    | CloseAgain(n: nat)                 // then fd_close unmaps the fd page again
    | DupCloseFd(o: nat, n: nat)         // dup: the same three steps on the target
    | DupCloseData(o: nat, n: nat)
    | DupCloseAgain(o: nat, n: nat)
    | DupData(o: nat, n: nat)            // map the data page of o at n
    | DupFd(o: nat, n: nat)              // then the fd page
    | DupUndoData(n: nat)                // error exit of dup
    | DupUndoFd(n: nat)
    | CheckRuns(n: nat)                                   // runs = env->env_runs
    | CheckFd(n: nat, runs: nat)                          // fd_ref = pageref(fd)
    | CheckPipe(n: nat, runs: nat, fdRef: nat)            // pipe_ref = pageref(p)
    | CheckAgain(n: nat, runs: nat, fdRef: nat, pipeRef: nat)  // runs != env->env_runs?

  // fd: which end each mapped fd page is; data: where the pipe's data page is mapped.
  datatype State = State(fd: map<Slot, End>, data: set<Slot>, cur: nat, runs: map<nat, nat>, pc: map<nat, Pc>)

  function PcOf(s: State, e: nat): Pc { if e in s.pc then s.pc[e] else Idle }

  function RunsOf(s: State, e: nat): nat { if e in s.runs then s.runs[e] else 0 }

  // pageref of the fd page of one end: the number of its mappings.
  ghost function Holders(fd: map<Slot, End>, end: End): set<Slot> {
    set k | k in fd && fd[k] == end
  }

  datatype Step =
    | Switch(e: nat)               // env_run, after a timer interrupt or a yield; e may be the same env
    | StartClose(n: nat)
    | StartDup(o: nat, n: nat)
    | StartCheck(n: nat)
    | Act                          // the next step of the running env
    | Exit                         // env_free: one system call

  predicate Enabled(s: State, step: Step) {
    var me := s.cur;
    match step
    case Switch(e) => true
    case StartClose(n) => PcOf(s, me).Idle? && Slot(me, n) in s.fd
    case StartDup(o, n) => PcOf(s, me).Idle? && Slot(me, o) in s.fd
    case StartCheck(n) => PcOf(s, me).Idle? && Slot(me, n) in s.fd
    case Act => !PcOf(s, me).Idle?
    case Exit => PcOf(s, me).Idle?
  }

  function Goto(s: State, pc: Pc): State { s.(pc := s.pc[s.cur := pc]) }

  ghost function ActOn(s: State): State
    requires !PcOf(s, s.cur).Idle?
  {
    var me := s.cur;
    match PcOf(s, me)
    case Idle => s
    case CloseFd(n) => Goto(s.(fd := s.fd - {Slot(me, n)}), CloseData(n))
    case CloseData(n) => Goto(s.(data := s.data - {Slot(me, n)}), CloseAgain(n))
    case CloseAgain(n) => Goto(s.(fd := s.fd - {Slot(me, n)}), Idle)
    case DupCloseFd(o, n) => Goto(s.(fd := s.fd - {Slot(me, n)}), DupCloseData(o, n))
    case DupCloseData(o, n) => Goto(s.(data := s.data - {Slot(me, n)}), DupCloseAgain(o, n))
    case DupCloseAgain(o, n) => Goto(s.(fd := s.fd - {Slot(me, n)}), DupData(o, n))
    case DupData(o, n) =>
      Goto(if Slot(me, o) in s.data then s.(data := s.data + {Slot(me, n)}) else s, DupFd(o, n))
    case DupFd(o, n) =>
      if Slot(me, o) in s.fd then Goto(s.(fd := s.fd[Slot(me, n) := s.fd[Slot(me, o)]]), Idle)
      else Goto(s, DupUndoData(n))
    case DupUndoData(n) => Goto(s.(data := s.data - {Slot(me, n)}), DupUndoFd(n))
    case DupUndoFd(n) => Goto(s.(fd := s.fd - {Slot(me, n)}), Idle)
    case CheckRuns(n) => Goto(s, CheckFd(n, RunsOf(s, me)))
    case CheckFd(n, runs) =>
      Goto(s, CheckPipe(n, runs, if Slot(me, n) in s.fd then |Holders(s.fd, s.fd[Slot(me, n)])| else 0))
    case CheckPipe(n, runs, fdRef) =>
      Goto(s, CheckAgain(n, runs, fdRef, if Slot(me, n) in s.data then |s.data| else 0))
    case CheckAgain(n, runs, fdRef, pipeRef) =>
      if runs != RunsOf(s, me) then Goto(s, CheckRuns(n)) else Goto(s, Idle)
  }

  ghost function Next(s: State, step: Step): State
    requires Enabled(s, step)
  {
    match step
    case Switch(e) => s.(cur := e, runs := s.runs[e := RunsOf(s, e) + 1])
    case StartClose(n) => Goto(s, CloseFd(n))
    // dup calls close(newfd), which does nothing when newfd is not open
    case StartDup(o, n) => Goto(s, if Slot(s.cur, n) in s.fd then DupCloseFd(o, n) else DupData(o, n))
    case StartCheck(n) => Goto(s, CheckRuns(n))
    case Act => ActOn(s)
    case Exit =>
      s.(fd := map k | k in s.fd && k.env != s.cur :: s.fd[k], data := set k | k in s.data && k.env != s.cur)
  }

  // ------------------------------------------------------------------ the invariant

  /** An fd page is never mapped without its data page. */
  ghost predicate FdHasData(s: State) {
    forall k :: k in s.fd ==> k in s.data
  }

  // The slot on which an env is halfway, where the fd page is already or still unmapped.
  function Halfway(pc: Pc): set<nat> {
    match pc
    case CloseData(n) => {n}
    case DupCloseData(o, n) => {n}
    case DupFd(o, n) => {n}
    case DupUndoData(n) => {n}
    case _ => {}
  }

  ghost predicate EnvOk(s: State, e: nat) {
    var pc := PcOf(s, e);
    && (forall n :: n !in Halfway(pc) ==> (Slot(e, n) in s.fd <==> Slot(e, n) in s.data))
    && (forall n :: n in Halfway(pc) ==> Slot(e, n) !in s.fd)
    && (pc.DupData? || pc.DupUndoFd? || pc.CloseAgain? || pc.DupCloseAgain? ==> Slot(e, pc.n) !in s.fd)
    && (pc.DupFd? && Slot(e, pc.o) in s.fd ==> Slot(e, pc.n) in s.data)
    && (pc.CheckRuns? || pc.CheckFd? || pc.CheckPipe? || pc.CheckAgain? ==> Slot(e, pc.n) in s.fd)
    // what the check has read is still true, unless the env has been switched out since
    && (pc.CheckFd? || pc.CheckPipe? || pc.CheckAgain? ==> pc.runs <= RunsOf(s, e))
    && ((pc.CheckPipe? || pc.CheckAgain?) && e == s.cur && pc.runs == RunsOf(s, e) ==>
          pc.fdRef == |Holders(s.fd, s.fd[Slot(e, pc.n)])|)
    && (pc.CheckAgain? && e == s.cur && pc.runs == RunsOf(s, e) ==> pc.pipeRef == |s.data|)
  }

  ghost predicate Inv(s: State) {
    forall e :: EnvOk(s, e)
  }

  lemma InvFdHasData(s: State)
    requires Inv(s)
    ensures FdHasData(s)
  {
    forall k | k in s.fd ensures k in s.data {
      assert EnvOk(s, k.env);
      assert k == Slot(k.env, k.n);
    }
  }

  // A step of the running env leaves the other envs as they were.
  lemma OthersKeep(s: State, r: State, e: nat)
    requires EnvOk(s, e) && e != s.cur && r.cur == s.cur && r.runs == s.runs
    requires PcOf(r, e) == PcOf(s, e)
    requires forall n :: (Slot(e, n) in r.fd <==> Slot(e, n) in s.fd) && (Slot(e, n) in r.data <==> Slot(e, n) in s.data)
    ensures EnvOk(r, e)
  {
  }

  // Only the running env's own slots and program counter differ.
  ghost predicate Framed(s: State, r: State) {
    && r.cur == s.cur && r.runs == s.runs
    && (forall e :: e != s.cur ==> PcOf(r, e) == PcOf(s, e))
    && (forall k: Slot :: k.env != s.cur ==> (k in r.fd <==> k in s.fd) && (k in r.data <==> k in s.data))
  }

  predicate Closing(pc: Pc) {
    pc.CloseFd? || pc.CloseData? || pc.CloseAgain? || pc.DupCloseFd? || pc.DupCloseData? || pc.DupCloseAgain?
  }

  lemma ClosingFrame(s: State)
    requires Closing(PcOf(s, s.cur))
    ensures Framed(s, ActOn(s))
  {
  }

  lemma OtherFrame(s: State)
    requires !PcOf(s, s.cur).Idle? && !Closing(PcOf(s, s.cur))
    ensures Framed(s, ActOn(s))
  {
  }

  lemma ActFrame(s: State)
    requires !PcOf(s, s.cur).Idle?
    ensures Framed(s, ActOn(s))
  {
    hide Framed, ActOn;
    if Closing(PcOf(s, s.cur)) {
      ClosingFrame(s);
    } else {
      OtherFrame(s);
    }
  }

  lemma ActOthers(s: State, e: nat)
    requires EnvOk(s, e) && e != s.cur && !PcOf(s, s.cur).Idle?
    ensures EnvOk(ActOn(s), e)
  {
    hide ActOn, EnvOk;
    ActFrame(s);
    OthersKeep(s, ActOn(s), e);
  }

  // The steps that read, and the steps that change mappings.
  lemma ActChecks(s: State)
    requires EnvOk(s, s.cur)
    requires var pc := PcOf(s, s.cur); pc.CheckRuns? || pc.CheckFd? || pc.CheckPipe? || pc.CheckAgain?
    ensures EnvOk(ActOn(s), s.cur)
  {
  }

  lemma ActUnmaps(s: State)
    requires EnvOk(s, s.cur)
    requires var pc := PcOf(s, s.cur);
      pc.CloseFd? || pc.CloseData? || pc.CloseAgain? || pc.DupCloseFd? || pc.DupCloseData? || pc.DupCloseAgain?
      || pc.DupUndoData? || pc.DupUndoFd?
    ensures EnvOk(ActOn(s), s.cur)
  {
  }

  lemma ActMaps(s: State)
    requires EnvOk(s, s.cur)
    requires PcOf(s, s.cur).DupData? || PcOf(s, s.cur).DupFd?
    ensures EnvOk(ActOn(s), s.cur)
  {
  }

  lemma ActKeeps(s: State)
    requires Inv(s) && !PcOf(s, s.cur).Idle?
    ensures Inv(ActOn(s))
  {
    forall e ensures EnvOk(ActOn(s), e) {
      assert EnvOk(s, e);
      hide EnvOk, ActOn;
      if e != s.cur {
        ActOthers(s, e);
      } else if PcOf(s, e).DupData? || PcOf(s, e).DupFd? {
        ActMaps(s);
      } else if PcOf(s, e).CheckRuns? || PcOf(s, e).CheckFd? || PcOf(s, e).CheckPipe? || PcOf(s, e).CheckAgain? {
        ActChecks(s);
      } else {
        ActUnmaps(s);
      }
    }
  }

  // A switch counts one more run, so a check in progress in e will be repeated.
  lemma SwitchKeeps(s: State, to: nat, e: nat)
    requires EnvOk(s, e)
    ensures EnvOk(Next(s, Switch(to)), e)
  {
  }

  lemma StartKeeps(s: State, step: Step, e: nat)
    requires EnvOk(s, e) && Enabled(s, step) && (step.StartClose? || step.StartDup? || step.StartCheck?)
    ensures EnvOk(Next(s, step), e)
  {
    if e != s.cur {
      OthersKeep(s, Next(s, step), e);
    }
  }

  lemma ExitKeeps(s: State, e: nat)
    requires EnvOk(s, e) && Enabled(s, Exit)
    ensures EnvOk(Next(s, Exit), e)
  {
    if e != s.cur {
      OthersKeep(s, Next(s, Exit), e);
    }
  }

  lemma NextKeeps(s: State, step: Step)
    requires Inv(s) && Enabled(s, step)
    ensures Inv(Next(s, step))
  {
    var r := Next(s, step);
    if step.Act? {
      ActKeeps(s);
    } else {
      forall e ensures EnvOk(r, e) {
        assert EnvOk(s, e);
        hide EnvOk, Next;
        match step
        case Switch(to) => SwitchKeeps(s, to, e);
        case Exit => ExitKeeps(s, e);
        case _ => StartKeeps(s, step, e);
      }
    }
  }

  // ------------------------------------------------------------------ what the check may report

  // _pipe_is_closed is about to return: env_runs is unchanged since the first read.
  ghost predicate Reports(s: State, closed: bool) {
    var pc := PcOf(s, s.cur);
    pc.CheckAgain? && pc.runs == RunsOf(s, s.cur) && closed == (pc.fdRef == pc.pipeRef)
  }

  // The end that the running env holds at its checked descriptor.
  ghost function MyEnd(s: State): End
    requires Inv(s) && PcOf(s, s.cur).CheckAgain?
  {
    assert EnvOk(s, s.cur);
    s.fd[Slot(s.cur, PcOf(s, s.cur).n)]
  }

  // Somebody, anywhere, still has the other end open.
  ghost predicate OtherEndOpen(fd: map<Slot, End>, end: End) {
    exists k :: k in fd && fd[k] != end
  }

  // No dup or close is halfway, in any env.
  ghost predicate Quiet(s: State) {
    forall k :: k in s.data ==> k in s.fd
  }

  lemma {:induction false} SameSizeSubset(a: set<Slot>, b: set<Slot>)
    requires a <= b && |a| == |b|
    ensures a == b
  {
    if a != b {
      var x :| x in b && x !in a;
      assert a <= b - {x};
      SubsetSize(a, b - {x});
    }
  }

  lemma {:induction false} SubsetSize(a: set<Slot>, b: set<Slot>)
    requires a <= b
    ensures |a| <= |b|
  {
    if a != {} {
      var x :| x in a;
      SubsetSize(a - {x}, b - {x});
    }
  }

  /** Counting holders of one end against mappings of the data page tells whether the other end is open. */
  lemma CountsDecide(fd: map<Slot, End>, data: set<Slot>, end: End)
    requires forall k :: k in fd ==> k in data
    ensures |Holders(fd, end)| == |data| ==> !OtherEndOpen(fd, end)
    ensures (forall k :: k in data ==> k in fd) ==> (|Holders(fd, end)| == |data| <==> !OtherEndOpen(fd, end))
  {
    var h := Holders(fd, end);
    assert h <= data;
    if |h| == |data| {
      SameSizeSubset(h, data);
    }
    if (forall k :: k in data ==> k in fd) && !OtherEndOpen(fd, end) {
      assert h == data;
    }
  }

  lemma ReportSound(s: State, closed: bool)
    requires Inv(s) && Reports(s, closed)
    ensures closed ==> !OtherEndOpen(s.fd, MyEnd(s))
    ensures Quiet(s) ==> (closed <==> !OtherEndOpen(s.fd, MyEnd(s)))
  {
    assert EnvOk(s, s.cur);
    InvFdHasData(s);
    CountsDecide(s.fd, s.data, MyEnd(s));
  }

  ghost function Run(s: State, steps: seq<Step>): State
    decreases |steps|
  {
    if steps == [] then s else Run(if Enabled(s, steps[0]) then Next(s, steps[0]) else s, steps[1..])
  }

  lemma {:induction false} RunKeeps(s: State, steps: seq<Step>)
    requires Inv(s)
    ensures Inv(Run(s, steps))
    decreases |steps|
  {
    if steps != [] {
      if Enabled(s, steps[0]) {
        NextKeeps(s, steps[0]);
      }
      hide Inv;
      RunKeeps(if Enabled(s, steps[0]) then Next(s, steps[0]) else s, steps[1..]);
    }
  }

  // A start without anything in progress: forks and spawns have finished.
  ghost predicate CleanStart(s: State) {
    s.pc == map[] && forall k :: k in s.fd <==> k in s.data
  }

  /**
   * For every interleaving of dups, closes, exits and checks: when _pipe_is_closed reports closed to
   * one end, no env has the other end open; and the report is exact when nothing is halfway.
   */
  lemma ClosedIsClosed(s: State, steps: seq<Step>, closed: bool)
    requires CleanStart(s) && Reports(Run(s, steps), closed)
    ensures var r := Run(s, steps);
      && Inv(r)
      && (closed ==> !OtherEndOpen(r.fd, MyEnd(r)))
      && (Quiet(r) ==> (closed <==> !OtherEndOpen(r.fd, MyEnd(r))))
  {
    assert Inv(s);
    RunKeeps(s, steps);
    ReportSound(Run(s, steps), closed);
  }

  // ------------------------------------------------------------------ why the order matters

  /**
   * The counts agree exactly if the fd pages without their data page are as many as the data pages
   * without their fd page plus the fd pages of the other end. So a false report needs an fd page
   * without its data page.
   */
  lemma CountsAgreeExact(fd: map<Slot, End>, data: set<Slot>, end: End)
    ensures |Holders(fd, end)| == |data| <==>
            |fd.Keys - data| == |data - fd.Keys| + |fd.Keys - Holders(fd, end)|
    ensures OtherEndOpen(fd, end) <==> |fd.Keys - Holders(fd, end)| > 0
    ensures |Holders(fd, end)| == |data| && OtherEndOpen(fd, end) ==> exists k :: k in fd && k !in data
  {
    var h, keys, both := Holders(fd, end), fd.Keys, fd.Keys * data;
    Split(keys, h);
    Split(keys, data);
    Split(data, keys);
    assert keys * h == h && data * keys == both;
    if k :| k in fd && fd[k] != end {
      assert k in keys - h;
    }
    if keys - h != {} {
      var k :| k in keys - h;
      assert fd[k] != end;
    }
    if keys - data != {} {
      var k :| k in keys - data;
      assert k in fd && k !in data;
    }
  }

  lemma Split(a: set<Slot>, b: set<Slot>)
    ensures |a| == |a * b| + |a - b|
  {
    assert a == (a * b) + (a - b);
  }

  // Env 1 has both ends and is forking env 2, env 3 has the read end and runs. fork copies pages in
  // ascending order, so the child has the fd page of its read end and no data page yet.
  function MidFork(): State {
    State(map[Slot(1, 0) := ReadEnd, Slot(1, 1) := WriteEnd, Slot(2, 0) := ReadEnd, Slot(3, 0) := ReadEnd],
          {Slot(1, 0), Slot(1, 1), Slot(3, 0)}, 3, map[], map[])
  }

  /** During that fork, env 3 checks its read end: closed is reported although the write end is open. */
  lemma ForkInProgressMisleads()
    ensures var s := Run(MidFork(), [StartCheck(0), Act, Act, Act]);
      && s.cur == 3 && PcOf(s, 3).CheckAgain? && Slot(3, 0) in s.fd && s.fd[Slot(3, 0)] == ReadEnd
      && Reports(s, true) && OtherEndOpen(s.fd, ReadEnd)
  {
    var s0 := MidFork();
    assert Holders(s0.fd, ReadEnd) == {Slot(1, 0), Slot(2, 0), Slot(3, 0)};
    var s1 := Next(s0, StartCheck(0));
    var s2 := Next(s1, Act);
    var s3 := Next(s2, Act);
    var s4 := Next(s3, Act);
    assert PcOf(s3, 3) == CheckPipe(0, 0, 3);
    assert PcOf(s4, 3) == CheckAgain(0, 0, 3, 3);
    var steps := [StartCheck(0), Act, Act, Act];
    assert steps[1..] == [Act, Act, Act] && steps[1..][1..] == [Act, Act] && steps[1..][1..][1..] == [Act];
    assert Run(s0, steps) == Run(s1, steps[1..]) == Run(s2, steps[1..][1..]) == Run(s3, [Act]) == Run(s4, []);
    assert s4.fd[Slot(1, 1)] == WriteEnd;
  }

  // ------------------------------------------------------------------ what dup and close achieve

  // Slot k is the same in both states.
  predicate SameSlot(s: State, r: State, k: Slot) {
    && (k in r.fd <==> k in s.fd) && (k in s.fd ==> k in r.fd && r.fd[k] == s.fd[k]) && (k in r.data <==> k in s.data)
  }

  predicate Gone(s: State, k: Slot) { k !in s.fd && k !in s.data }

  // n refers to what o did in s. With n == o, dup has closed the descriptor before it looks at it.
  predicate Dupped(s: State, r: State, e: nat, o: nat, n: nat) {
    var k, l := Slot(e, o), Slot(e, n);
    if o == n then Gone(r, l) else k in s.fd && l in r.fd && r.fd[l] == s.fd[k] && l in r.data
  }

  // How far the dup of o onto n that env e started in s has got in r.
  ghost predicate DupSoFar(s: State, r: State, e: nat, o: nat, n: nat) {
    var l := Slot(e, n);
    && Slot(e, o) in s.fd && Slot(e, o) in s.data
    && (forall m :: m != n ==> SameSlot(s, r, Slot(e, m)))
    && match PcOf(r, e)
       case DupCloseFd(a, b) => a == o && b == n && SameSlot(s, r, l)
       case DupCloseData(a, b) => a == o && b == n && l !in r.fd
       case DupCloseAgain(a, b) => a == o && b == n && Gone(r, l)
       case DupData(a, b) => a == o && b == n && Gone(r, l)
       case DupFd(a, b) => a == o && b == n && l !in r.fd && (l in r.data <==> o != n)
       case DupUndoData(b) => o == b == n && Gone(r, l)
       case DupUndoFd(b) => o == b == n && Gone(r, l)
       case Idle => Dupped(s, r, e, o, n)
       case _ => false
  }

  ghost predicate CloseSoFar(s: State, r: State, e: nat, n: nat) {
    && (forall m :: m != n ==> SameSlot(s, r, Slot(e, m)))
    && match PcOf(r, e)
       case CloseFd(b) => b == n
       case CloseData(b) => b == n && Slot(e, n) !in r.fd
       case CloseAgain(b) => b == n && Gone(r, Slot(e, n))
       case Idle => Gone(r, Slot(e, n))
       case _ => false
  }

  // Other envs neither change the slots of e nor move it.
  lemma Elsewhere(s: State, step: Step, e: nat)
    requires Enabled(s, step) && (e != s.cur || step.Switch?)
    ensures var r := Next(s, step); PcOf(r, e) == PcOf(s, e) && forall m :: SameSlot(s, r, Slot(e, m))
  {
    hide Holders;
  }

  lemma DupGoesOn(s: State, r: State, step: Step, e: nat, o: nat, n: nat)
    requires DupSoFar(s, r, e, o, n) && Enabled(r, step) && !PcOf(r, e).Idle?
    ensures DupSoFar(s, Next(r, step), e, o, n)
  {
    if e != r.cur || step.Switch? {
      Elsewhere(r, step, e);
      hide Next, Enabled;
    } else {
      DupActs(s, r, o, n);
    }
  }

  lemma DupActs(s: State, r: State, o: nat, n: nat)
    requires DupSoFar(s, r, r.cur, o, n) && !PcOf(r, r.cur).Idle?
    ensures DupSoFar(s, ActOn(r), r.cur, o, n)
  {
    assert SameSlot(s, r, Slot(r.cur, o)) || o == n;
  }

  lemma CloseGoesOn(s: State, r: State, step: Step, e: nat, n: nat)
    requires CloseSoFar(s, r, e, n) && Enabled(r, step) && !PcOf(r, e).Idle?
    ensures CloseSoFar(s, Next(r, step), e, n)
  {
    if e != r.cur || step.Switch? {
      Elsewhere(r, step, e);
      hide Next, Enabled;
    }
  }

  // Env e is in a call from s on, until the run ends.
  ghost predicate Busy(s: State, steps: seq<Step>, e: nat)
    decreases |steps|
  {
    steps == [] || (!PcOf(s, e).Idle? && Busy(if Enabled(s, steps[0]) then Next(s, steps[0]) else s, steps[1..], e))
  }

  lemma {:induction false} DupRuns(s: State, r: State, steps: seq<Step>, e: nat, o: nat, n: nat)
    requires DupSoFar(s, r, e, o, n) && Busy(r, steps, e)
    ensures DupSoFar(s, Run(r, steps), e, o, n)
    decreases |steps|
  {
    if steps != [] {
      hide DupSoFar, Next, Enabled;
      if Enabled(r, steps[0]) {
        DupGoesOn(s, r, steps[0], e, o, n);
      }
      DupRuns(s, if Enabled(r, steps[0]) then Next(r, steps[0]) else r, steps[1..], e, o, n);
    }
  }

  lemma {:induction false} CloseRuns(s: State, r: State, steps: seq<Step>, e: nat, n: nat)
    requires CloseSoFar(s, r, e, n) && Busy(r, steps, e)
    ensures CloseSoFar(s, Run(r, steps), e, n)
    decreases |steps|
  {
    if steps != [] {
      hide CloseSoFar, Next, Enabled;
      if Enabled(r, steps[0]) {
        CloseGoesOn(s, r, steps[0], e, n);
      }
      CloseRuns(s, if Enabled(r, steps[0]) then Next(r, steps[0]) else r, steps[1..], e, n);
    }
  }

  /**
   * A dup, whatever other envs do between its steps: when it is over, the new descriptor is the same
   * end of the pipe with its data page, the old one is as it was, and so is every other descriptor of
   * the env. Duplicating a descriptor onto itself closes it.
   */
  lemma DupCompletes(s: State, steps: seq<Step>, o: nat, n: nat)
    requires Inv(s) && Enabled(s, StartDup(o, n)) && Busy(Next(s, StartDup(o, n)), steps, s.cur)
    requires PcOf(Run(Next(s, StartDup(o, n)), steps), s.cur).Idle?
    ensures var r := Run(Next(s, StartDup(o, n)), steps);
      Dupped(s, r, s.cur, o, n) && forall m :: m != n ==> SameSlot(s, r, Slot(s.cur, m))
  {
    assert EnvOk(s, s.cur);
    assert DupSoFar(s, Next(s, StartDup(o, n)), s.cur, o, n);
    hide Inv, EnvOk, Next, Enabled, Busy, Run;
    DupRuns(s, Next(s, StartDup(o, n)), steps, s.cur, o, n);
  }

  /** A close: both pages of the descriptor are gone, and every other descriptor is as it was. */
  lemma CloseCompletes(s: State, steps: seq<Step>, n: nat)
    requires Enabled(s, StartClose(n)) && Busy(Next(s, StartClose(n)), steps, s.cur)
    requires PcOf(Run(Next(s, StartClose(n)), steps), s.cur).Idle?
    ensures var r := Run(Next(s, StartClose(n)), steps);
      Gone(r, Slot(s.cur, n)) && forall m :: m != n ==> SameSlot(s, r, Slot(s.cur, m))
  {
    assert CloseSoFar(s, Next(s, StartClose(n)), s.cur, n);
    hide Next, Enabled, Busy, Run;
    CloseRuns(s, Next(s, StartClose(n)), steps, s.cur, n);
  }

  ghost predicate CheckSoFar(s: State, r: State, e: nat, n: nat) {
    && (forall m :: SameSlot(s, r, Slot(e, m)))
    && match PcOf(r, e)
       case CheckRuns(b) => b == n
       case CheckFd(b, _) => b == n
       case CheckPipe(b, _, _) => b == n
       case CheckAgain(b, _, _, _) => b == n
       case Idle => true
       case _ => false
  }

  lemma CheckGoesOn(s: State, r: State, step: Step, e: nat, n: nat)
    requires CheckSoFar(s, r, e, n) && Enabled(r, step) && !PcOf(r, e).Idle?
    ensures CheckSoFar(s, Next(r, step), e, n)
  {
    if e != r.cur || step.Switch? {
      Elsewhere(r, step, e);
      hide Next, Enabled;
    }
    hide Holders;
  }

  lemma {:induction false} CheckRunsOn(s: State, r: State, steps: seq<Step>, e: nat, n: nat)
    requires CheckSoFar(s, r, e, n) && Busy(r, steps, e)
    ensures CheckSoFar(s, Run(r, steps), e, n)
    decreases |steps|
  {
    if steps != [] {
      hide CheckSoFar, Next, Enabled;
      if Enabled(r, steps[0]) {
        CheckGoesOn(s, r, steps[0], e, n);
      }
      CheckRunsOn(s, if Enabled(r, steps[0]) then Next(r, steps[0]) else r, steps[1..], e, n);
    }
  }

  /**
   * pipe_is_closed on descriptor n, whatever other envs do between its loads: an answer is about the
   * end that n was when the call began. Closed is true, and exact when no dup or close is halfway.
   */
  lemma CheckAnswers(s: State, steps: seq<Step>, n: nat, closed: bool)
    requires Inv(s) && Enabled(s, StartCheck(n)) && Busy(Next(s, StartCheck(n)), steps, s.cur)
    requires var t := Run(Next(s, StartCheck(n)), steps); t.cur == s.cur && Reports(t, closed)
    ensures var t, k := Run(Next(s, StartCheck(n)), steps), Slot(s.cur, n);
      && k in s.fd && k in t.fd && t.fd[k] == s.fd[k]
      && (closed ==> !OtherEndOpen(t.fd, s.fd[k]))
      && (Quiet(t) ==> (closed <==> !OtherEndOpen(t.fd, s.fd[k])))
  {
    assert CheckSoFar(s, Next(s, StartCheck(n)), s.cur, n);
    NextKeeps(s, StartCheck(n));
    assert Slot(s.cur, n) in s.fd;
    var r := Next(s, StartCheck(n));
    hide Inv, Next, Enabled, Busy, Run, EnvOk, Quiet, OtherEndOpen;
    RunKeeps(r, steps);
    CheckRunsOn(s, r, steps, s.cur, n);
    ReportSound(Run(r, steps), closed);
  }

  /** When an env is freed its descriptors are gone, and those of other envs are as they were. */
  lemma ExitCloses(s: State, e: nat, n: nat)
    requires Enabled(s, Exit)
    ensures var r := Next(s, Exit); if e == s.cur then Gone(r, Slot(e, n)) else SameSlot(s, r, Slot(e, n))
  {
  }
}

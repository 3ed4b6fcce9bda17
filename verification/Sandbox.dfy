/** The container lifecycle of clients/sandbox.py, _docker_run: any number of runs, racing against a
    daemon and against docker CLI processes that move on their own. */
module Sandbox {

  type Name = nat  // uuid-based, so never reused

  // The `docker run` process of a run; created: the daemon has already made its container; signalled: it has been
  // sent SIGKILL, and until it is dead the daemon may still act on its request.
  datatype Cli = Absent | Live(created: bool, signalled: bool) | Dead

  predicate CanCreate(cli: Cli) {
    cli.Live? && !cli.created
  }

  datatype Exit = Normal | TimedOut | Raised | NotSpawned

  datatype Pc =
    | Communicating
    | FirstRemove                // the wall clock fired
    | Killing
    | Waiting
    | LastRemove(exit: Exit)     // the finally block
    | Returned(exit: Exit, removed: bool)

  datatype Run = Run(pc: Pc, cli: Cli)
  datatype Host = Host(runs: map<Name, Run>, containers: set<Name>)

  datatype Action =
    | Spawn(n: Name)
    | SpawnFails(n: Name)
    | SpawnInterrupted(n: Name, started: bool)  // cancelled at the await of the spawn, before the try block
    | OutputDone(n: Name)                   // communicate() returns once the CLI is dead
    | WallClock(n: Name)
    | ForceRemove(n: Name, works: bool)     // false: rm itself could not be run; logged and ignored
    | Kill(n: Name)                         // a reaped CLI raises ProcessLookupError, suppressed
    | WaitDone(n: Name)
    | Raise(n: Name)                        // an exception or cancellation at an await
    | DaemonCreates(n: Name)
    | ContainerEnds(n: Name)
    | CliDies(n: Name)                      // by itself or by the signal

  function At(h: Host, n: Name, pc: Pc): Host
    requires n in h.runs
  {
    h.(runs := h.runs[n := h.runs[n].(pc := pc)])
  }

  function Signal(cli: Cli): Cli {
    if cli.Live? then cli.(signalled := true) else cli
  }

  function Step(h: Host, a: Action): Host {
    if a.Spawn? || a.SpawnFails? || a.SpawnInterrupted? then
      if a.n in h.runs then h
      else if a.Spawn? then h.(runs := h.runs[a.n := Run(Communicating, Live(false, false))])
      else if a.SpawnFails? then h.(runs := h.runs[a.n := Run(Returned(NotSpawned, true), Absent)])
      else h.(runs := h.runs[a.n := Run(Returned(Raised, false), if a.started then Live(false, false) else Absent)])
    else if a.n !in h.runs then h
    else
      var run := h.runs[a.n];
      match a
      case OutputDone(n) => if run.pc == Communicating && run.cli == Dead then At(h, n, LastRemove(Normal)) else h
      case WallClock(n) => if run.pc == Communicating then At(h, n, FirstRemove) else h
      case ForceRemove(n, works) =>
        var after := if works then h.(containers := h.containers - {n}) else h;
        if run.pc == FirstRemove then At(after, n, Killing)
        else if run.pc.LastRemove? then At(after, n, Returned(run.pc.exit, works))
        else h
      case Kill(n) => if run.pc == Killing then h.(runs := h.runs[n := Run(Waiting, Signal(run.cli))]) else h
      case WaitDone(n) => if run.pc == Waiting && run.cli == Dead then At(h, n, LastRemove(TimedOut)) else h
      case Raise(n) =>
        if run.pc == Communicating || run.pc == FirstRemove || run.pc == Waiting then At(h, n, LastRemove(Raised))
        else if run.pc.LastRemove? then At(h, n, Returned(Raised, false))
        else h
      case DaemonCreates(n) =>
        if CanCreate(run.cli) then Host(h.runs[n := run.(cli := run.cli.(created := true))], h.containers + {n}) else h
      case ContainerEnds(n) => h.(containers := h.containers - {n})
      case CliDies(n) => if run.cli.Live? then h.(runs := h.runs[n := run.(cli := Dead)]) else h
  }

  function Exec(h: Host, acts: seq<Action>): Host {
    if acts == [] then h else Step(Exec(h, acts[..|acts| - 1]), acts[|acts| - 1])
  }

  const IDLE := Host(map[], {})

  // ---- safety ----------------------------------------------------------------------------------

  // A run that left normally or on a timeout, with its last removal carried out.
  predicate CleanReturn(run: Run) {
    run.pc.Returned? && run.pc.removed && run.pc.exit != Raised
  }

  predicate RunOk(h: Host, n: Name)
    requires n in h.runs
  {
    var run := h.runs[n];
    && (run.pc == Waiting && run.cli.Live? ==> run.cli.signalled)
    && (!run.pc.Returned? ==> run.cli != Absent)
    && (run.pc.LastRemove? ==> run.pc.exit != NotSpawned && (run.pc.exit != Raised ==> run.cli == Dead))
    && (run.pc.Returned? && run.pc.exit != Raised ==> !run.cli.Live?)
    && (run.cli == Absent || CanCreate(run.cli) ==> n !in h.containers)
    && (CleanReturn(run) ==> n !in h.containers)
  }

  predicate Inv(h: Host) {
    h.containers <= h.runs.Keys && forall n | n in h.runs :: RunOk(h, n)
  }

  lemma {:induction false} StepKeepsInv(h: Host, a: Action)
    requires Inv(h)
    ensures Inv(Step(h, a))
  {
    var t := Step(h, a);
    forall n | n in t.runs ensures RunOk(t, n) {
      if n in h.runs { assert RunOk(h, n); }
    }
  }

  lemma {:induction false} RunsKeepInv(acts: seq<Action>)
    ensures Inv(Exec(IDLE, acts))
  {
    if acts != [] {
      RunsKeepInv(acts[..|acts| - 1]);
      StepKeepsInv(Exec(IDLE, acts[..|acts| - 1]), acts[|acts| - 1]);
    }
  }

  // No exception or cancellation, and every rm can be run.
  predicate Orderly(acts: seq<Action>) {
    forall a | a in acts :: !a.Raise? && !a.SpawnInterrupted? && (a.ForceRemove? ==> a.works)
  }

  lemma {:induction false} OrderlyExits(acts: seq<Action>)
    requires Orderly(acts)
    ensures forall n | n in Exec(IDLE, acts).runs ::
              var pc := Exec(IDLE, acts).runs[n].pc;
              (pc.LastRemove? ==> pc.exit != Raised) && (pc.Returned? ==> pc.exit != Raised && pc.removed)
  {
    if acts != [] {
      var init, a := acts[..|acts| - 1], acts[|acts| - 1];
      assert a in acts && forall b | b in init :: b in acts;
      OrderlyExits(init);
    }
  }

  /** In every interleaving without exceptions the live containers are those of unfinished runs; and in
      every interleaving at all, none bears the name of a run that returned cleanly. */
  lemma {:induction false} NoContainerOutlivesItsRun(acts: seq<Action>, n: Name)
    requires n in Exec(IDLE, acts).containers
    ensures n in Exec(IDLE, acts).runs && !CleanReturn(Exec(IDLE, acts).runs[n])
    ensures Orderly(acts) ==> !Exec(IDLE, acts).runs[n].pc.Returned?
  {
    RunsKeepInv(acts);
    assert RunOk(Exec(IDLE, acts), n);
    if Orderly(acts) { OrderlyExits(acts); }
  }

  lemma {:induction false} ExecAppend(h: Host, first: seq<Action>, more: seq<Action>)
    ensures Exec(h, first + more) == Exec(Exec(h, first), more)
  {
    if more == [] {
      assert first + more == first;
    } else {
      var all := first + more;
      assert all[..|all| - 1] == first + more[..|more| - 1];
      ExecAppend(h, first, more[..|more| - 1]);
    }
  }

  // ---- what can still appear after a return ---------------------------------------------------------

  // Once no container exists and the CLI can make none, none ever will.
  lemma {:induction false} SettledStaysSettled(h: Host, n: Name, more: seq<Action>)
    requires n in h.runs && h.runs[n].pc.Returned? && n !in h.containers && !CanCreate(h.runs[n].cli)
    ensures n !in Exec(h, more).containers && n in Exec(h, more).runs
    ensures Exec(h, more).runs[n].pc == h.runs[n].pc && !CanCreate(Exec(h, more).runs[n].cli)
  {
    if more != [] { SettledStaysSettled(h, n, more[..|more| - 1]); }
  }

  lemma {:induction false} LaterContainerIff(h: Host, n: Name)
    requires n in h.runs && h.runs[n].pc.Returned?
    ensures (exists more :: n in Exec(h, more).containers) <==> n in h.containers || CanCreate(h.runs[n].cli)
  {
    if n in h.containers {
      assert n in Exec(h, []).containers;
    } else if CanCreate(h.runs[n].cli) {
      var more := [DaemonCreates(n)];
      assert more[..0] == [];
      assert Exec(h, more) == Step(Exec(h, []), more[0]);
      assert n in Exec(h, more).containers;
    } else {
      forall more ensures n !in Exec(h, more).containers { SettledStaysSettled(h, n, more); }
    }
  }

  // The action by which a run leaves, whichever way.
  predicate Leaves(h: Host, a: Action, n: Name) {
    && (n !in h.runs || !h.runs[n].pc.Returned?)
    && n in Step(h, a).runs && Step(h, a).runs[n].pc.Returned?
  }

  /** Decided before a run leaves, on every way out: a container of its name can exist after the return, at once or
      ever, iff the spawn was interrupted with the CLI started, or the CLI is alive and has not had its container
      made - which only an exception leaves behind - or the last removal does not take away one that is there. */
  lemma {:induction false} LeakIff(acts: seq<Action>, n: Name, a: Action)
    requires Leaves(Exec(IDLE, acts), a, n)
    ensures var h := Exec(IDLE, acts);
            && ((exists more :: n in Exec(Step(h, a), more).containers) <==>
                  if n !in h.runs then a.SpawnInterrupted? && a.started
                  else CanCreate(h.runs[n].cli) || (!(a.ForceRemove? && a.works) && n in h.containers))
            && (n in h.runs ==> h.runs[n].pc.LastRemove? && (h.runs[n].cli.Live? ==> h.runs[n].pc.exit == Raised))
  {
    RunsKeepInv(acts);
    var h := Exec(IDLE, acts);
    hide Exec;
    assert n in h.runs ==> RunOk(h, n);
    LeavesFrom(h, n, a);
    LaterContainerIff(Step(h, a), n);
  }

  lemma {:induction false} LeavesFrom(h: Host, n: Name, a: Action)
    requires Leaves(h, a, n)
    ensures a.n == n
    ensures n in h.runs ==> h.runs[n].pc.LastRemove? && (a.ForceRemove? || a.Raise?)
    ensures n !in h.runs ==> a.SpawnFails? || a.SpawnInterrupted?
  {}

  /** A run that returned cleanly never has a container again, whatever happens afterwards: the last
      removal followed the death of the CLI. */
  lemma {:induction false} CleanReturnIsFinal(acts: seq<Action>, more: seq<Action>, n: Name)
    requires n in Exec(IDLE, acts).runs && CleanReturn(Exec(IDLE, acts).runs[n])
    ensures n !in Exec(IDLE, acts + more).containers
  {
    RunsKeepInv(acts);
    assert RunOk(Exec(IDLE, acts), n);
    ExecAppend(IDLE, acts, more);
    SettledStaysSettled(Exec(IDLE, acts), n, more);
  }

  lemma {:induction false} ExecLast(h: Host, acts: seq<Action>, a: Action)
    ensures Exec(h, acts + [a]) == Step(Exec(h, acts), a)
  {
    assert (acts + [a])[..|acts|] == acts;
  }

  /** An exception is the one way out that can leak although its removal worked: the CLI is not killed on
      it, so the daemon may create the container after the return. */
  lemma {:induction false} ExceptionCanLeak(n: Name)
    ensures var h := Exec(IDLE, [Spawn(n), Raise(n), ForceRemove(n, true), DaemonCreates(n)]);
            n in h.containers && n in h.runs && h.runs[n].pc == Returned(Raised, true)
  {
    ExecLast(IDLE, [], Spawn(n));
    ExecLast(IDLE, [Spawn(n)], Raise(n));
    ExecLast(IDLE, [Spawn(n), Raise(n)], ForceRemove(n, true));
    ExecLast(IDLE, [Spawn(n), Raise(n), ForceRemove(n, true)], DaemonCreates(n));
    assert [] + [Spawn(n)] == [Spawn(n)] && [Spawn(n)] + [Raise(n)] == [Spawn(n), Raise(n)];
    assert [Spawn(n), Raise(n)] + [ForceRemove(n, true)] == [Spawn(n), Raise(n), ForceRemove(n, true)];
    assert [Spawn(n), Raise(n), ForceRemove(n, true)] + [DaemonCreates(n)]
           == [Spawn(n), Raise(n), ForceRemove(n, true), DaemonCreates(n)];
  }

  function Alone(n: Name, pc: Pc, cli: Cli, containers: set<Name>): Host {
    Host(map[n := Run(pc, cli)], containers)
  }

  lemma {:induction false} WallClockFires(n: Name)
    ensures Step(Step(IDLE, Spawn(n)), WallClock(n)) == Alone(n, FirstRemove, Live(false, false), {})
  {}

  lemma {:induction false} RemovedAndSignalled(n: Name)
    ensures Step(Step(Alone(n, FirstRemove, Live(false, false), {}), ForceRemove(n, true)), Kill(n))
            == Alone(n, Waiting, Live(false, true), {})
  {}

  lemma {:induction false} CreatedAllTheSame(n: Name)
    ensures Step(Step(Alone(n, Waiting, Live(false, true), {}), DaemonCreates(n)), CliDies(n))
            == Alone(n, Waiting, Dead, {n})
  {}

  /** The removal on the timeout path does not suffice by itself: the daemon may act after it, even after the
      kill signal, and only the removal in the finally block takes that container away. */
  lemma {:induction false} FirstRemovalIsNotEnough(n: Name)
    ensures var h := Exec(IDLE, [Spawn(n), WallClock(n)] + [ForceRemove(n, true), Kill(n)]
                                + [DaemonCreates(n), CliDies(n)] + [WaitDone(n)]);
            n in h.containers && n in h.runs && h.runs[n].pc == LastRemove(TimedOut)
            && n !in Step(h, ForceRemove(n, true)).containers
  {
    hide Exec, Step;
    var a, b, c := [Spawn(n), WallClock(n)], [ForceRemove(n, true), Kill(n)], [DaemonCreates(n), CliDies(n)];
    ExecLast(IDLE, a + b + c, WaitDone(n));
    ExecAppend(IDLE, a + b, c);
    ExecAppend(IDLE, a, b);
    ExecTwo(IDLE, a[0], a[1]);
    ExecTwo(Exec(IDLE, a), b[0], b[1]);
    ExecTwo(Exec(IDLE, a + b), c[0], c[1]);
    WallClockFires(n);
    RemovedAndSignalled(n);
    CreatedAllTheSame(n);
    FinallyRemoves(n);
  }

  lemma {:induction false} FinallyRemoves(n: Name)
    ensures var h := Step(Alone(n, Waiting, Dead, {n}), WaitDone(n));
            n in h.containers && n in h.runs && h.runs[n].pc == LastRemove(TimedOut)
            && n !in Step(h, ForceRemove(n, true)).containers
  {}

  lemma {:induction false} ExecTwo(h: Host, a: Action, b: Action)
    ensures Exec(h, [a, b]) == Step(Step(h, a), b)
  {
    ExecLast(h, [], a);
    ExecLast(h, [a], b);
    assert [] + [a] == [a] && [a] + [b] == [a, b];
  }

  // ---- how a run ends ------------------------------------------------------------------------------------

  /** A run touches its own process and its own container only. */
  lemma {:induction false} OthersUntouched(h: Host, a: Action, m: Name)
    requires m != a.n
    ensures var t := Step(h, a);
            && (m in t.runs <==> m in h.runs) && (m in h.runs ==> t.runs[m] == h.runs[m])
            && (m in t.containers <==> m in h.containers)
  {}

  /** The everyday run: the container is made, works and ends, its CLI with it; the output is taken; the removal finds
      nothing to do. */
  lemma {:induction false} EverydayRun(n: Name)
    ensures Step(Step(IDLE, Spawn(n)), DaemonCreates(n)) == Alone(n, Communicating, Live(true, false), {n})
    ensures Step(Step(Alone(n, Communicating, Live(true, false), {n}), ContainerEnds(n)), CliDies(n))
            == Alone(n, Communicating, Dead, {})
    ensures Step(Step(Alone(n, Communicating, Dead, {}), OutputDone(n)), ForceRemove(n, true))
            == Alone(n, Returned(Normal, true), Dead, {})
  {}

  /** Taking the output and removing the container ends a run normally iff its CLI is dead; before, there is no
      output to take. */
  lemma {:induction false} OutputEndsTheRun(h: Host, n: Name, works: bool)
    requires n in h.runs && h.runs[n].pc == Communicating
    ensures var t := Step(h, OutputDone(n));
            var u := Step(t, ForceRemove(n, works));
            && (h.runs[n].cli == Dead <==> n in u.runs && u.runs[n].pc == Returned(Normal, works))
            && (h.runs[n].cli == Dead ==> t.containers == h.containers
                                          && u.containers == if works then h.containers - {n} else h.containers)
            && (h.runs[n].cli != Dead ==> t == h && u.runs == h.runs)
  {}

  /** When the wall clock fires, the removal that follows takes the container away before the CLI is killed, so that
      code which never ends does not run on. */
  lemma {:induction false} WallClockRemoves(h: Host, n: Name, works: bool)
    requires n in h.runs && h.runs[n].pc == Communicating
    ensures var t := Step(Step(h, WallClock(n)), ForceRemove(n, works));
            && t.containers == (if works then h.containers - {n} else h.containers)
            && t.runs == h.runs[n := h.runs[n].(pc := Killing)]
            && CliSignalled(Step(t, Kill(n)), n) && Step(t, Kill(n)).containers == t.containers
  {}

  // It waits for a CLI that is dead or has been signalled.
  predicate CliSignalled(h: Host, n: Name) {
    n in h.runs && h.runs[n].pc == Waiting && (h.runs[n].cli.Live? ==> h.runs[n].cli.signalled)
  }

  // The order of the statements of _docker_run.
  predicate Follows(pc: Pc, next: Pc) {
    match pc
    case Communicating => next == FirstRemove || next == LastRemove(Normal) || next == LastRemove(Raised)
    case FirstRemove => next == Killing || next == LastRemove(Raised)
    case Killing => next == Waiting
    case Waiting => next == LastRemove(TimedOut) || next == LastRemove(Raised)
    case LastRemove(exit) => next.Returned? && (next.exit == exit || next.exit == Raised)
    case Returned(_, _) => false
  }

  /** A run's statements come in their order, and only its own action moves it; it goes on from the wait with a dead CLI
      only, and is communicating when it begins. */
  lemma {:induction false} StatementsInOrder(h: Host, a: Action, n: Name)
    requires n in Step(h, a).runs
    ensures n in h.runs ==>
              var run, next := h.runs[n], Step(h, a).runs[n];
              && (next.pc == run.pc || (a.n == n && Follows(run.pc, next.pc)))
              && (run.pc == Waiting && next.pc == LastRemove(TimedOut) ==> run.cli == Dead)
              && (next.cli != run.cli ==>
                    a == Kill(n) || a == CliDies(n) || (a == DaemonCreates(n) && run.cli.Live? && !run.cli.created))
    ensures n !in h.runs ==>
              var next := Step(h, a).runs[n];
              if a == Spawn(n) then next == Run(Communicating, Live(false, false))
              else next.pc.Returned? && (a == SpawnFails(n) || a.SpawnInterrupted?)
  {}

  // The wall clock fired for this run while it was communicating.
  predicate Fired(acts: seq<Action>, n: Name) {
    acts != [] &&
    var init, a := acts[..|acts| - 1], acts[|acts| - 1];
    var h := Exec(IDLE, init);
    Fired(init, n) || (a == WallClock(n) && n in h.runs && h.runs[n].pc == Communicating)
  }

  // Its output was taken: its CLI was dead and it was communicating still.
  predicate Taken(acts: seq<Action>, n: Name) {
    acts != [] &&
    var init, a := acts[..|acts| - 1], acts[|acts| - 1];
    var h := Exec(IDLE, init);
    Taken(init, n) || (a == OutputDone(n) && n in h.runs && h.runs[n].pc == Communicating && h.runs[n].cli == Dead)
  }

  predicate OnTimeout(pc: Pc) {
    pc == FirstRemove || pc == Killing || pc == Waiting || ((pc.LastRemove? || pc.Returned?) && pc.exit == TimedOut)
  }

  predicate OnNormal(pc: Pc) {
    (pc.LastRemove? || pc.Returned?) && pc.exit == Normal
  }

  /** A run's exit tells its story: timed out only if the wall clock fired while it was communicating, normal only if
      its output was taken; and without exceptions the converse, so that a run whose CLI died first and whose output
      was taken is never reported as timed out. */
  lemma {:induction false} ExitTells(acts: seq<Action>, n: Name)
    requires n in Exec(IDLE, acts).runs
    ensures var pc := Exec(IDLE, acts).runs[n].pc;
            && (OnTimeout(pc) ==> Fired(acts, n)) && (OnNormal(pc) ==> Taken(acts, n))
            && (pc == Communicating ==> !Fired(acts, n) && !Taken(acts, n))
            && (Orderly(acts) ==> (OnTimeout(pc) <==> Fired(acts, n)) && (OnNormal(pc) <==> Taken(acts, n)))
  {
    var init, a := acts[..|acts| - 1], acts[|acts| - 1];
    var h := Exec(IDLE, init);
    if Orderly(acts) {
      assert a in acts && forall b | b in init :: b in acts;
      OrderlyExits(init);
    }
    if n in h.runs {
      ExitTells(init, n);
      StepOnPath(h, a, n);
    } else {
      NothingBeforeSpawn(init, n);
    }
  }

  lemma {:induction false} NothingBeforeSpawn(acts: seq<Action>, n: Name)
    requires n !in Exec(IDLE, acts).runs
    ensures !Fired(acts, n) && !Taken(acts, n)
  {
    if acts != [] {
      var h, a := Exec(IDLE, acts[..|acts| - 1]), acts[|acts| - 1];
      RunsStay(h, a, n);
      NothingBeforeSpawn(acts[..|acts| - 1], n);
    }
  }

  lemma {:induction false} RunsStay(h: Host, a: Action, n: Name)
    ensures n in h.runs ==> n in Step(h, a).runs
  {}

  // How one action moves a run between the two ways out.
  lemma {:induction false} StepOnPath(h: Host, a: Action, n: Name)
    requires n in h.runs
    ensures n in Step(h, a).runs
    ensures var pc, next := h.runs[n].pc, Step(h, a).runs[n].pc;
            && (OnTimeout(next) ==> OnTimeout(pc) || (pc == Communicating && a == WallClock(n)))
            && (OnNormal(next) ==> OnNormal(pc) || (pc == Communicating && h.runs[n].cli == Dead && a == OutputDone(n)))
            && (next == Communicating ==> pc == Communicating && a != WallClock(n)
                                          && (a == OutputDone(n) ==> h.runs[n].cli != Dead))
            && (pc == Communicating && a == WallClock(n) ==> OnTimeout(next))
            && (pc == Communicating && h.runs[n].cli == Dead && a == OutputDone(n) ==> OnNormal(next))
            && (!a.Raise? && OnTimeout(pc) ==> OnTimeout(next)) && (!a.Raise? && OnNormal(pc) ==> OnNormal(next))
  {}

  /** An exception at any await leads to the finally block with process and container as they were; one in the
      finally block leaves it. Between the removal and the wait there is no await. */
  lemma {:induction false} ExceptionsLeave(h: Host, n: Name)
    requires n in h.runs && !h.runs[n].pc.Returned? && h.runs[n].pc != Killing
    ensures var t := Step(h, Raise(n));
            && t.containers == h.containers && n in t.runs && t.runs[n].cli == h.runs[n].cli
            && t.runs[n].pc == if h.runs[n].pc.LastRemove? then Returned(Raised, false) else LastRemove(Raised)
  {}

  /** Without a docker binary there is no process and never a container. */
  lemma {:induction false} FailedSpawnLeavesNothing(acts: seq<Action>, more: seq<Action>, n: Name)
    requires n !in Exec(IDLE, acts).runs
    ensures var h := Exec(Step(Exec(IDLE, acts), SpawnFails(n)), more);
            n in h.runs && h.runs[n].pc == Returned(NotSpawned, true) && n !in h.containers
  {
    RunsKeepInv(acts);
    SettledStaysSettled(Step(Exec(IDLE, acts), SpawnFails(n)), n, more);
  }

  // ---- a timed-out run is never stuck ------------------------------------------------------------------

  // The next step on the timeout path; while waiting, the death of a CLI that is still alive.
  function NextStep(run: Run, n: Name): Action {
    match run.pc
    case Communicating => WallClock(n)
    case FirstRemove => ForceRemove(n, true)
    case Killing => Kill(n)
    case Waiting => if run.cli.Live? then CliDies(n) else WaitDone(n)
    case _ => ForceRemove(n, true)
  }

  function StepsLeft(run: Run): nat {
    match run.pc
    case Communicating => 6
    case FirstRemove => 5
    case Killing => 4
    case Waiting => if run.cli.Live? then 3 else 2
    case LastRemove(_) => 1
    case Returned(_, _) => 0
  }

  /** Whatever the daemon and the CLI have done - a CLI already reaped included - an unfinished run's next step is
      enabled and brings it nearer its return; the one thing it waits for is the death of a CLI it has
      signalled; and nothing anybody does sets it back. */
  lemma {:induction false} TimeoutAlwaysReturns(acts: seq<Action>, n: Name, a: Action)
    requires n in Exec(IDLE, acts).runs && !Exec(IDLE, acts).runs[n].pc.Returned?
    ensures var h := Exec(IDLE, acts);
            var run := h.runs[n];
            && StepsLeft(Step(h, NextStep(run, n)).runs[n]) < StepsLeft(run)
            && (NextStep(run, n).CliDies? ==> run.cli.signalled)
            && (run.pc == Communicating && run.cli == Dead ==>
                  n in Step(h, OutputDone(n)).runs && StepsLeft(Step(h, OutputDone(n)).runs[n]) == 1)
            && n in Step(h, a).runs && StepsLeft(Step(h, a).runs[n]) <= StepsLeft(run)
  {
    RunsKeepInv(acts);
    var h := Exec(IDLE, acts);
    assert RunOk(h, n);
    hide Exec, Inv;
    NextStepAdvances(h, n);
    NothingSetsBack(h, n, a);
  }

  lemma {:induction false} NextStepAdvances(h: Host, n: Name)
    requires n in h.runs && RunOk(h, n) && !h.runs[n].pc.Returned?
    ensures var run := h.runs[n];
            n in Step(h, NextStep(run, n)).runs && StepsLeft(Step(h, NextStep(run, n)).runs[n]) < StepsLeft(run)
  {}

  lemma {:induction false} NothingSetsBack(h: Host, n: Name, a: Action)
    requires n in h.runs
    ensures n in Step(h, a).runs && StepsLeft(Step(h, a).runs[n]) <= StepsLeft(h.runs[n])
  {}
}

// Every run ends: with no new connection and no new request, cancel or close
// from outside, the threads can only take so many steps. So what holds when nothing
// can step is what comes about in the end.

module ForwardEnding {
  import opened Options
  import opened Slots
  import opened ForwardModel
  import opened ForwardOwners
  import opened ForwardSetup
  import opened ForwardRoutes
  import opened ForwardTheorems
  import opened ForwardProgress

  // ----- how many steps a thread has left at most -----

  /** Room for the forwards that there are or will be, and for the connections. */
  datatype Bounds = Bounds(fwds: nat, conns: nat)

  const CALL: nat := 15

  function CleanSteps(pc: CleanPc): (n: nat)
    ensures 0 < n < CALL
  {
    match pc
    case KWant => 14
    case KStart => 13
    case KClose => 12
    case KListener => 10
    case KUnlink => 9
    case KHook => 8
    case KWantBind => 7
    case KServer => 6
    case KConn => 5
    case KRoute => 4
    case KRelease => 3
    case KCount => 2
    case KEnd => 1
  }

  /** A close runs at most one cleanup for each forward. */
  function CloseSteps(b: Bounds, pc: ClosePc): nat {
    match pc
    case CWant => b.fwds * CALL + 4
    case CWon => b.fwds * CALL + 3
    case CRun(pending) => |pending| * CALL + 2
    case CClosed => 1
  }

  function CloseBound(b: Bounds): nat {
    b.fwds * CALL + 5
  }

  /** Room for n closes. */
  function Closes(b: Bounds, n: nat): nat {
    n * CloseBound(b)
  }

  lemma ClosesMono(b: Bounds, n: nat, m: nat)
    requires n <= m
    ensures Closes(b, n) <= Closes(b, m)
  {
    TimesMono(n, m, CloseBound(b));
  }

  lemma ClosesLess(b: Bounds, n: nat)
    requires n > 0
    ensures Closes(b, n - 1) + CloseBound(b) == Closes(b, n)
  {
    TimesLess(n, CloseBound(b));
  }

  function HandlerSteps(b: Bounds, pc: HandlerPc): nat {
    match pc
    case Begin => 48 + Closes(b, b.conns) + CloseBound(b)
    case WantTarget => 47 + Closes(b, b.conns)
    case Disconnect => 46 + Closes(b, b.conns)
    case Takeover(victims) => 45 + Closes(b, |victims|)
    case Listen => 44
    case Count(_) => 43
    case WantBind(_) => 42
    case Open(_) => 41
    case AddConn(_, _) => 40
    case AddServer(_, _) => 39
    case ReleaseBind(_, _) => 38
    case Register(_) => 37
    case Watch(_) => 36
    case Reply(_) => 18
    case Exit => 1
  }

  function MainSteps(b: Bounds, main: Main): nat {
    match main
    case Handler(_, pc) => HandlerSteps(b, pc)
    case Watcher(_) => CALL + 1
    case Acceptor(_) => CALL + 1
    case Canceller(_) => CALL + 1
    case Closer(_) => 1 + CloseBound(b)
    case Finished => 0
  }

  function Steps(b: Bounds, th: Thread): nat {
    MainSteps(b, th.main)
    + (if th.close.Some? then CloseSteps(b, th.close.value.pc) else 0)
    + (if th.clean.Some? then CleanSteps(th.clean.value.pc) else 0)
  }

  /** What a step adds in new threads. */
  function Spawned(b: Bounds, ch: Change): nat {
    if ch.Start? then MainSteps(b, ch.main) else 0
  }

  // ----- one step -----

  lemma TimesMono(a: nat, b: nat, n: nat)
    requires a <= b
    ensures a * n <= b * n
  {}

  lemma TimesLess(a: nat, n: nat)
    requires a > 0
    ensures (a - 1) * n + n == a * n
  {}

  lemma CleanCosts(b: Bounds, s: Sys, th: Thread)
    requires th.clean.Some? && CleanMove(s, th).Some?
    ensures var m := CleanMove(s, th).value; Steps(b, m.th) < Steps(b, th) && !m.ch.Start?
  {
    hide MainSteps, CloseSteps;
  }

  lemma CloseCosts(b: Bounds, s: Sys, th: Thread, x: Choice)
    requires th.clean.None? && th.close.Some? && CloseMove(s, th, x).Some?
    requires |s.fwds.Keys| <= b.fwds && forall c <- s.conns :: s.conns[c].cleanups <= s.fwds.Keys
    ensures var m := CloseMove(s, th, x).value; Steps(b, m.th) < Steps(b, th) && !m.ch.Start?
  {
    hide MainSteps;
    match th.close.value.pc
    case CWon =>
      SubsetSize(x.fs, s.fwds.Keys);
      TimesMono(|x.fs|, b.fwds, CALL);
    case CRun(pending) =>
      if pending != {} {
        TimesLess(|pending|, CALL);
      }
    case _ =>
  }

  lemma {:induction false} SubsetSize<T>(a: set<T>, b: set<T>)
    requires a <= b
    ensures |a| <= |b|
  {
    if a != {} {
      var x :| x in a;
      SubsetSize(a - {x}, b - {x});
    }
  }

  predicate TakingOver(pc: HandlerPc) {
    pc.Begin? || pc.WantTarget? || pc.Disconnect? || pc.Takeover?
  }

  lemma DisconnectCosts(b: Bounds, s: Sys, th: Thread, x: Choice)
    requires th.clean.None? && th.close.None? && th.main.Handler? && th.main.pc.Disconnect? && HandlerMove(s, th, x).Some?
    requires |s.conns.Keys| <= b.conns && forall f <- s.fwds :: s.fwds[f].conn in s.conns
    ensures var m := HandlerMove(s, th, x).value; Steps(b, m.th) < Steps(b, th) && !m.ch.Start?
  {
    var victims := Victims(s, th.main.req.conn, th.main.req.target);
    assert victims <= s.conns.Keys;
    hide OpenMove, CloseBound, CloseSteps, CleanSteps, Closes, Victims;
    SubsetSize(victims, s.conns.Keys);
    ClosesMono(b, |victims|, b.conns);
  }

  lemma VictimCosts(b: Bounds, s: Sys, th: Thread, x: Choice)
    requires th.clean.None? && th.close.None? && th.main.Handler? && th.main.pc.Takeover? && HandlerMove(s, th, x).Some?
    ensures var m := HandlerMove(s, th, x).value; Steps(b, m.th) < Steps(b, th) && !m.ch.Start?
  {
    hide OpenMove, CloseBound, CloseSteps, CleanSteps, Closes, Victims;
    ClosingCosts(b);
    var victims := th.main.pc.victims;
    if victims != {} {
      ClosesLess(b, |victims|);
    }
  }

  lemma TakeoverCosts(b: Bounds, s: Sys, th: Thread, x: Choice)
    requires th.clean.None? && th.close.None? && th.main.Handler? && TakingOver(th.main.pc) && HandlerMove(s, th, x).Some?
    requires |s.conns.Keys| <= b.conns && forall f <- s.fwds :: s.fwds[f].conn in s.conns
    ensures var m := HandlerMove(s, th, x).value; Steps(b, m.th) < Steps(b, th) && !m.ch.Start?
  {
    if th.main.pc.Disconnect? {
      hide HandlerMove, Steps;
      DisconnectCosts(b, s, th, x);
    } else if th.main.pc.Takeover? {
      hide HandlerMove, Steps;
      VictimCosts(b, s, th, x);
    } else {
      hide OpenMove, CloseBound, CloseSteps, CleanSteps, Closes, Victims;
      ClosingCosts(b);
    }
  }

  lemma SetupCosts(b: Bounds, s: Sys, th: Thread, x: Choice)
    requires th.clean.None? && th.close.None? && th.main.Handler? && !TakingOver(th.main.pc) && HandlerMove(s, th, x).Some?
    ensures var m := HandlerMove(s, th, x).value; Steps(b, m.th) + Spawned(b, m.ch) < Steps(b, th)
  {
    hide OpenMove, CloseBound, CloseSteps, Closes;
    if th.main.pc.Open? && x.Opens? {
      OpenCosts(b, s, th, x.o);
    }
  }

  lemma ClosingCosts(b: Bounds)
    ensures CloseSteps(b, CWant) < CloseBound(b)
  {}

  lemma OpenCosts(b: Bounds, s: Sys, th: Thread, o: Opening)
    requires th.main.Handler? && th.main.pc.Open? && OpenMove(s, th, o).Some?
    ensures var m := OpenMove(s, th, o).value;
      m.th.close == th.close && m.th.clean == th.clean && MainSteps(b, m.th.main) < MainSteps(b, th.main) && !m.ch.Start?
  {}

  lemma MainCosts(b: Bounds, s: Sys, th: Thread, x: Choice)
    requires th.clean.None? && th.close.None? && !th.main.Handler? && MainMove(s, th, x).Some?
    ensures var m := MainMove(s, th, x).value; Steps(b, m.th) < Steps(b, th) && !m.ch.Start?
  {
    hide HandlerMove;
  }

  /** Every step of a thread uses up some of its own, also for the threads that it starts. */
  lemma MoveCosts(b: Bounds, s: Sys, th: Thread, x: Choice)
    requires Plan(s, th, x).Some? && |s.fwds.Keys| <= b.fwds && |s.conns.Keys| <= b.conns
    requires forall c <- s.conns :: s.conns[c].cleanups <= s.fwds.Keys
    requires forall f <- s.fwds :: s.fwds[f].conn in s.conns
    ensures var m := Plan(s, th, x).value; Steps(b, m.th) + Spawned(b, m.ch) < Steps(b, th)
  {
    hide CleanMove, CloseMove, HandlerMove, Steps;
    if th.clean.Some? {
      CleanCosts(b, s, th);
    } else if th.close.Some? {
      CloseCosts(b, s, th, x);
    } else if th.main.Handler? {
      if TakingOver(th.main.pc) {
        TakeoverCosts(b, s, th, x);
      } else {
        SetupCosts(b, s, th, x);
      }
    } else {
      hide MainMove;
      MainCosts(b, s, th, x);
    }
  }

  // ----- all threads -----

  ghost function Total(b: Bounds, threads: map<Tid, Thread>): nat
    decreases |threads|
  {
    if threads == map[] then 0
    else
      var t :| t in threads;
      Fewer(threads, t);
      Steps(b, threads[t]) + Total(b, threads - {t})
  }

  lemma Fewer(threads: map<Tid, Thread>, t: Tid)
    requires t in threads
    ensures |threads - {t}| < |threads|
  {
    assert (threads - {t}).Keys == threads.Keys - {t};
    assert |threads| == |threads.Keys| && |threads - {t}| == |(threads - {t}).Keys|;
  }

  /** The total does not depend on the order of the threads. */
  lemma {:induction false} TotalOf(b: Bounds, threads: map<Tid, Thread>, t: Tid)
    requires t in threads
    ensures Total(b, threads) == Steps(b, threads[t]) + Total(b, threads - {t})
    decreases |threads|
  {
    hide Steps;
    var u :| u in threads && Total(b, threads) == Steps(b, threads[u]) + Total(b, threads - {u});
    if u != t {
      Fewer(threads, u);
      Fewer(threads, t);
      TotalOf(b, threads - {u}, t);
      TotalOf(b, threads - {t}, u);
      assert threads - {u} - {t} == threads - {t} - {u};
    }
  }

  lemma TotalChanged(b: Bounds, threads: map<Tid, Thread>, t: Tid, th: Thread)
    ensures Total(b, threads[t := th]) == Steps(b, th) + Total(b, threads - {t})
  {
    hide Steps;
    TotalOf(b, threads[t := th], t);
    assert threads[t := th] - {t} == threads - {t};
  }

  // ----- room -----

  /** A handler that has not made its forward yet. */
  predicate Yet(th: Thread) {
    th.main.Handler? && (TakingOver(th.main.pc) || th.main.pc.Listen?)
  }

  function ToCome(s: Sys): set<Tid> {
    set t | t in s.threads && Yet(s.threads[t])
  }

  function RoomFor(s: Sys): Bounds {
    Bounds(|s.fwds.Keys| + |ToCome(s)|, |s.conns.Keys|)
  }

  predicate Fit(s: Sys, b: Bounds) {
    |s.fwds.Keys| + |ToCome(s)| <= b.fwds && |s.conns.Keys| <= b.conns
  }

  lemma CallsMakeNone(s: Sys, th: Thread, x: Choice)
    ensures th.clean.Some? && CleanMove(s, th).Some? ==> !CleanMove(s, th).value.ch.NewForward?
    ensures th.close.Some? && CloseMove(s, th, x).Some? ==> !CloseMove(s, th, x).value.ch.NewForward?
  {}

  lemma HandlerYet(s: Sys, th: Thread, x: Choice)
    requires th.main.Handler? && HandlerMove(s, th, x).Some?
    ensures var m := HandlerMove(s, th, x).value;
      && (Yet(m.th) ==> Yet(th))
      && (m.ch.NewForward? ==> Yet(th) && !Yet(m.th))
  {
    hide OpenMove;
    if th.main.pc.Open? && x.Opens? {
      OpenKeepsReq(s, th, x.o);
    }
  }

  lemma MoveYet(s: Sys, th: Thread, x: Choice)
    requires Plan(s, th, x).Some?
    ensures var m := Plan(s, th, x).value;
      && (Yet(m.th) ==> Yet(th))
      && (m.ch.NewForward? ==> Yet(th) && !Yet(m.th))
  {
    hide CleanMove, CloseMove, HandlerMove;
    CallsMakeNone(s, th, x);
    if th.clean.Some? {
      CleanKeepsMain(s, th);
    } else if th.close.Some? {
      CloseKeepsMain(s, th, x);
    } else if th.main.Handler? {
      HandlerYet(s, th, x);
    }
  }

  /** A step keeps within the room: a new forward takes the place of one to come. */
  lemma StepFits(s: Sys, t: Tid, x: Choice, b: Bounds)
    requires Step(s, Go(t, x)).Some? && Fit(s, b)
    ensures Fit(Step(s, Go(t, x)).value, b)
  {
    hide Plan, Step, Apply, ChangeOf, Applicable, Yet;
    var a := Go(t, x);
    var s1 := Step(s, a).value;
    var m, _ := GoStep(s, a);
    StepThreads(s, a);
    MoveYet(s, s.threads[t], x);
    ApplyCounts(s, t, m.ch);
    ApplyConnKeys(s, t, m.ch);
    if m.ch.Start? {
      NewcomersHaveNone(m.ch.main);
    }
    if m.ch.NewForward? {
      assert t in ToCome(s);
      SubsetSize(ToCome(s1), ToCome(s) - {t});
      SizeSnoc(s.fwds.Keys, m.ch.f);
    } else {
      SubsetSize(ToCome(s1), ToCome(s));
    }
  }

  lemma SizeSnoc<T>(a: set<T>, x: T)
    requires x !in a
    ensures |a + {x}| == |a| + 1
  {}

  lemma NewcomersHaveNone(main: Main)
    ensures main.Watcher? || main.Acceptor? ==> !Yet(Thread(main, None, None))
  {}

  lemma ApplyConnKeys(s: Sys, t: Tid, ch: Change)
    requires Applicable(s, ch)
    ensures Apply(s, t, ch).conns.Keys == s.conns.Keys
  {
    ApplyConnOnce(s, t, ch, 0);
  }

  /** One thread's share is exchanged, and a new thread brings its own. */
  lemma Exchanged(b: Bounds, threads: map<Tid, Thread>, t: Tid, th: Thread, ch: Change)
    requires t in threads && (ch.Start? ==> ch.w !in threads)
    ensures Total(b, Started(threads, ch)[t := th]) + Steps(b, threads[t]) == Total(b, threads) + Steps(b, th) + Spawned(b, ch)
  {
    hide Steps, Total, MainSteps;
    TotalOf(b, threads, t);
    TotalChanged(b, Started(threads, ch), t, th);
    if ch.Start? {
      var w, newcomer := ch.w, Thread(ch.main, None, None);
      FreshSteps(b, ch.main);
      assert threads[w := newcomer] - {t} == (threads - {t})[w := newcomer];
      assert threads - {t} - {w} == threads - {t};
      TotalChanged(b, threads - {t}, w, newcomer);
    }
  }

  lemma InvBounds(s: Sys, b: Bounds)
    requires Inv(s) && Fit(s, b)
    ensures |s.fwds.Keys| <= b.fwds && |s.conns.Keys| <= b.conns
    ensures forall c <- s.conns :: s.conns[c].cleanups <= s.fwds.Keys
    ensures forall f <- s.fwds :: s.fwds[f].conn in s.conns
  {
    hide Owned, SetupOwned, Kept, Counted, HolderRefs, HoldersInStep, RoutesLead, OnePerSlot, ToCome, Late, ConnsOf;
  }

  lemma StepTotal(s: Sys, t: Tid, x: Choice, b: Bounds)
    requires Inv(s) && Step(s, Go(t, x)).Some? && Fit(s, b)
    ensures Total(b, Step(s, Go(t, x)).value.threads) < Total(b, s.threads)
  {
    hide Plan, Step, Apply, ChangeOf, Applicable, Steps, Total, Inv, Fit, Spawned, Started;
    InvBounds(s, b);
    StepThreads(s, Go(t, x));
    var m := Plan(s, s.threads[t], x).value;
    MoveCosts(b, s, s.threads[t], x);
    Exchanged(b, s.threads, t, m.th, m.ch);
  }

  lemma FreshSteps(b: Bounds, main: Main)
    ensures Steps(b, Thread(main, None, None)) == MainSteps(b, main)
  {}

  // ----- runs -----

  /** Nothing comes from outside. */
  predicate Inside(run: seq<Action>) {
    forall i :: 0 <= i < |run| ==> run[i].Go?
  }

  lemma {:induction false} InsideBound(s: Sys, run: seq<Action>, b: Bounds)
    requires Inv(s) && Fit(s, b) && Inside(run) && Exec(s, run).Some?
    ensures var s1 := Exec(s, run).value;
      Inv(s1) && Fit(s1, b) && |run| + Total(b, s1.threads) <= Total(b, s.threads)
    decreases |run|
  {
    hide Step, Inv, Fit, Total;
    if run != [] {
      var front, a := run[..|run| - 1], run[|run| - 1];
      InsideBound(s, front, b);
      var mid := Exec(s, front).value;
      StepInv(mid, a);
      StepFits(mid, a.t, a.x, b);
      StepTotal(mid, a.t, a.x, b);
    }
  }

  /** Left to themselves, the threads of any reachable state can take only so many steps. */
  lemma EveryRunEnds(s: Sys, run: seq<Action>)
    requires Reachable(s) && Inside(run) && Exec(s, run).Some?
    ensures |run| <= Total(RoomFor(s), s.threads)
  {
    hide Step, Inv, Total, Exec;
    ReachableInv(s);
    InsideBound(s, run, RoomFor(s));
  }

  // ----- the end of a run -----

  lemma {:induction false} ExecOn(first: seq<Action>, s: Sys, run: seq<Action>)
    requires Exec(INIT, first) == Some(s)
    ensures Exec(INIT, first + run) == Exec(s, run)
    decreases |run|
  {
    hide Step;
    if run == [] {
      assert first + run == first;
    } else {
      var n := |run| - 1;
      ExecOn(first, s, run[..n]);
      assert (first + run)[..|first + run| - 1] == first + run[..n];
    }
  }

  lemma ReachableOn(s: Sys, run: seq<Action>)
    requires Reachable(s) && Exec(s, run).Some?
    ensures Reachable(Exec(s, run).value)
  {
    hide Exec;
    var first :| Exec(INIT, first) == Some(s);
    ExecOn(first, s, run);
    assert Exec(INIT, first + run) == Some(Exec(s, run).value);
  }

  lemma StepClosed(s: Sys, a: Action, c: Conn)
    requires Step(s, a).Some? && c in s.conns && s.conns[c].closed
    ensures var s1 := Step(s, a).value; c in s1.conns && s1.conns[c].closed
  {
    hide Step, Plan, Apply, Applicable;
    if a.Go? {
      var m, _ := GoStep(s, a);
      ApplyCleanups(s, a.t, m.ch, c);
    } else {
      OtherStep(s, a);
    }
  }

  lemma {:induction false} ClosedStays(s: Sys, run: seq<Action>, c: Conn)
    requires Exec(s, run).Some? && c in s.conns && s.conns[c].closed
    ensures var s1 := Exec(s, run).value; c in s1.conns && s1.conns[c].closed
    decreases |run|
  {
    hide Step;
    if run != [] {
      var n := |run| - 1;
      ClosedStays(s, run[..n], c);
      StepClosed(Exec(s, run[..n]).value, run[n], c);
    }
  }

  /** From every reachable state the threads come to a state in which none can step. */
  lemma {:induction false} QuietIsReached(s: Sys, b: Bounds) returns (run: seq<Action>)
    requires Inv(s) && Fit(s, b)
    ensures Inside(run) && Exec(s, run).Some? && Quiescent(Exec(s, run).value)
    decreases Total(b, s.threads)
  {
    hide Step, Inv, Fit, Total;
    if Quiescent(s) {
      run := [];
    } else {
      var t :| t in s.threads && !Stuck(s, t);
      var x :| Step(s, Go(t, x)).Some?;
      var s1 := Step(s, Go(t, x)).value;
      StepInv(s, Go(t, x));
      StepFits(s, t, x, b);
      StepTotal(s, t, x, b);
      var rest := QuietIsReached(s1, b);
      ExecFirst(s, Go(t, x), rest);
      run := [Go(t, x)] + rest;
    }
  }

  /**
   * A run of the threads alone that cannot go on has cleaned every forward of every
   * connection that was closed, also those set up on it meanwhile; by EveryRunEnds
   * each run comes to that point, and QuietIsReached says that there is one.
   */
  lemma ClosedIsCleanedInTheEnd(s: Sys, run: seq<Action>, c: Conn)
    requires Reachable(s) && Inside(run) && Exec(s, run).Some? && Quiescent(Exec(s, run).value)
    requires c in s.conns && s.conns[c].closed
    ensures var s1 := Exec(s, run).value; forall f <- s1.fwds :: s1.fwds[f].conn == c ==> s1.fwds[f].once.Done?
    ensures |run| <= Total(RoomFor(s), s.threads)
  {
    hide Step, Exec, Quiescent, Reachable, Total;
    var s1 := Exec(s, run).value;
    ReachableOn(s, run);
    ClosedStays(s, run, c);
    EveryRunEnds(s, run);
    forall f <- s1.fwds | s1.fwds[f].conn == c
      ensures s1.fwds[f].once.Done?
    {
      ClosedIsCleaned(s1, f);
    }
  }
}

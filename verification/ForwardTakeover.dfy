// Whom a force-connect takeover closes: exactly the other connections that had a
// listener for the same target when it took stock, each of them to the end, and
// their forwards are cleaned.

module ForwardTakeover {
  import opened Options
  import opened ForwardModel
  import opened ForwardOwners
  import opened ForwardSetup
  import opened ForwardTheorems
  import opened ForwardProgress
  import opened ForwardEnding
  import opened ForwardGone

  /** d is another connection than c, with a listener for the target. */
  ghost predicate Occupies(s: Sys, d: Conn, c: Conn, target: Target) {
    d != c && exists f :: f in s.listeners && f in s.fwds && s.fwds[f].conn == d && s.fwds[f].target == target
  }

  /** A handler about to disconnect whoever has its target. */
  predicate TakesStock(s: Sys, t: Tid, r: Req) {
    t in s.threads && s.threads[t] == Thread(Handler(r, Disconnect), None, None)
  }

  /** The step in which it does. */
  lemma StockTaken(s: Sys, t: Tid, r: Req, x: Choice)
    requires TakesStock(s, t, r) && Step(s, Go(t, x)).Some?
    ensures var s1 := Step(s, Go(t, x)).value; var th := s1.threads[t];
      && t in s1.threads && th.main.Handler? && th.main.pc.Takeover? && th.main.req == r && th.close.None? && th.clean.None?
      && forall d :: d in th.main.pc.victims <==> Occupies(s, d, r.conn, r.target)
  {
    hide CleanMove, CloseMove, OpenMove;
  }

  /** The connection that the step makes t call the close of. */
  function CallIn(s: Sys, a: Action, t: Tid): set<Conn>
    requires Step(s, a).Some?
  {
    var s1 := Step(s, a).value;
    if t in s.threads && t in s1.threads && s.threads[t].close.None? && s1.threads[t].close.Some? then
      {s1.threads[t].close.value.c}
    else {}
  }

  /** All connections that t calls the close of in a run. */
  function Called(s: Sys, run: seq<Action>, t: Tid): set<Conn>
    requires Exec(s, run).Some?
    decreases |run|
  {
    if run == [] then {}
    else
      var front := run[..|run| - 1];
      Called(s, front, t) + CallIn(Exec(s, front).value, run[|run| - 1], t)
  }

  /** The handler is done with its takeover. */
  predicate Over(th: Thread) {
    && th.close.None?
    && (th.main.Finished?
        || (th.main.Handler? && !th.main.pc.Begin? && !th.main.pc.WantTarget? && !th.main.pc.Disconnect? && !th.main.pc.Takeover?))
  }

  predicate DoneOr(s: Sys, d: Conn, close: Option<CloseCall>) {
    ConnOnce(s, d).Done? || (close.Some? && close.value.c == d)
  }

  /** Of all, those called are closed or being closed by t, and the others are still to come. */
  ghost predicate Underway(s: Sys, t: Tid, all: set<Conn>, called: set<Conn>) {
    && t in s.threads
    && (forall d <- called :: DoneOr(s, d, s.threads[t].close))
    && (if Over(s.threads[t]) then called == all
        else
          && s.threads[t].main.Handler? && s.threads[t].main.pc.Takeover?
          && called + s.threads[t].main.pc.victims == all
          && (s.threads[t].close.Some? ==> s.threads[t].close.value.c in called))
  }

  /** What the thread's own step makes of it. */
  lemma MoveUnderway(s: Sys, th: Thread, x: Choice)
    requires Plan(s, th, x).Some? && (Over(th) || (th.main.Handler? && th.main.pc.Takeover?))
    ensures var m := Plan(s, th, x).value;
      && (Over(th) ==> Over(m.th))
      && (!Over(th) && !Over(m.th) ==>
            && m.th.main.Handler? && m.th.main.pc.Takeover?
            && (if th.close.None? && m.th.close.Some? then
                  && m.th.close.value.c in th.main.pc.victims
                  && m.th.main.pc.victims == th.main.pc.victims - {m.th.close.value.c}
                else m.th.main.pc.victims == th.main.pc.victims))
      && (!Over(th) && Over(m.th) ==> th.close.None? && th.main.pc.victims == {})
      && (th.close.Some? ==>
            if m.th.close.Some? then m.th.close.value.c == th.close.value.c
            else m.ch == EndClose(th.close.value.c) || ConnOnce(s, th.close.value.c).Done?)
  {
    hide CleanMove, OpenMove;
    if th.clean.Some? {
      CleanKeepsMain(s, th);
    } else if th.close.None? && th.main.Handler? && th.main.pc.Open? && x.Opens? {
      OpenKeepsReq(s, th, x.o);
    }
  }

  lemma StepUnderway(s: Sys, a: Action, t: Tid, all: set<Conn>, called: set<Conn>)
    requires CloseOwned(s) && Step(s, a).Some? && Underway(s, t, all, called)
    ensures Underway(Step(s, a).value, t, all, called + CallIn(s, a, t))
  {
    hide Plan, Step, Apply, ChangeOf, Applicable;
    var s1 := Step(s, a).value;
    StepThreads(s, a);
    if a.Go? && a.t == t {
      MoveUnderway(s, s.threads[t], a.x);
    } else {
      assert s1.threads[t] == s.threads[t];
    }
    var more := called + CallIn(s, a, t);
    forall d <- more
      ensures DoneOr(s1, d, s1.threads[t].close)
    {
      StepConnOnce(s, a, d);
    }
    var main := s1.threads[t].main;
    if Over(s1.threads[t]) {
      assert more == all;
    } else {
      assert main.Handler? && main.pc.Takeover?;
      assert more + main.pc.victims == all;
    }
  }

  lemma {:induction false} RunUnderway(s: Sys, run: seq<Action>, t: Tid, all: set<Conn>)
    requires Inv(s) && Exec(s, run).Some? && Underway(s, t, all, {})
    ensures Inv(Exec(s, run).value) && Underway(Exec(s, run).value, t, all, Called(s, run, t))
    decreases |run|
  {
    hide Step, Inv, Underway, CallIn;
    if run != [] {
      var n := |run| - 1;
      RunUnderway(s, run[..n], t, all);
      var mid := Exec(s, run[..n]).value;
      StepInv(mid, run[n]);
      InvClosers(mid);
      StepUnderway(mid, run[n], t, all, Called(s, run[..n], t));
    }
  }

  lemma InvClosers(s: Sys)
    requires Inv(s)
    ensures CloseOwned(s) && Owned(s)
  {}

  /**
   * From the step in which a handler takes stock, in any run that brings it through
   * its takeover, it calls the close of exactly the connections that then occupied the
   * target, and every one of them has been closed to the end.
   */
  lemma TakeoverClosesExactly(s: Sys, t: Tid, r: Req, x: Choice, run: seq<Action>)
    requires Reachable(s) && TakesStock(s, t, r) && Step(s, Go(t, x)).Some?
    requires Exec(Step(s, Go(t, x)).value, run).Some?
    requires var th := Exec(Step(s, Go(t, x)).value, run).value.threads; t in th && !(th[t].main.Handler? && th[t].main.pc.Takeover?)
    ensures var s1 := Step(s, Go(t, x)).value; var s2 := Exec(s1, run).value;
      && (forall d :: d in Called(s1, run, t) <==> Occupies(s, d, r.conn, r.target))
      && (forall d :: Occupies(s, d, r.conn, r.target) ==> d in s2.conns && s2.conns[d].once.Done?)
  {
    hide Step, Inv, Exec, Reachable, Occupies, Called;
    var s1 := Step(s, Go(t, x)).value;
    StockTaken(s, t, r, x);
    ReachableInv(s);
    StepInv(s, Go(t, x));
    var all := s1.threads[t].main.pc.victims;
    assert {} + all == all;
    RunUnderway(s1, run, t, all);
  }

  // ----- in the end -----

  /** A connection whose close is over has its channel closed, and one whose close is about to be over too. */
  ghost predicate ShutWhenDone(s: Sys) {
    && (forall c <- s.conns :: s.conns[c].once.Done? ==> s.conns[c].closed)
    && (forall t <- s.threads :: AtShut(s.threads[t]).Some? ==>
          AtShut(s.threads[t]).value in s.conns && s.conns[AtShut(s.threads[t]).value].closed)
  }

  /** The connection whose channel the thread has just closed. */
  function AtShut(th: Thread): Option<Conn> {
    if th.close.Some? && th.close.value.pc.CClosed? then Some(th.close.value.c) else None
  }

  lemma MoveShut(s: Sys, th: Thread, x: Choice)
    requires Plan(s, th, x).Some?
    ensures var m := Plan(s, th, x).value;
      && (AtShut(m.th).Some? ==> AtShut(m.th) == AtShut(th) || m.ch == CloseChannel(AtShut(m.th).value))
      && (m.ch.EndClose? ==> AtShut(th) == Some(m.ch.c))
  {
    hide CleanMove, OpenMove;
    if th.clean.Some? {
      hide CloseMove, HandlerMove, MainMove;
      CleanKeepsMain(s, th);
      CleanChanges(s, th);
    } else if th.close.Some? {
      hide HandlerMove, MainMove;
    } else if th.main.Handler? && th.main.pc.Open? && x.Opens? {
      OpenKeepsReq(s, th, x.o);
    }
  }

  lemma StepChannel(s: Sys, a: Action, c: Conn)
    requires Step(s, a).Some? && c in s.conns
    ensures var s1 := Step(s, a).value; c in s1.conns && s1.conns[c].closed == (s.conns[c].closed || ChangeOf(s, a) == CloseChannel(c))
  {
    hide Plan, Step, Apply, ChangeOf, Applicable;
    if a.Go? {
      var m, _ := GoStep(s, a);
      ApplyCleanups(s, a.t, m.ch, c);
    } else {
      OtherStep(s, a);
    }
  }

  lemma ShutIsKnown(s: Sys, a: Action)
    requires Step(s, a).Some?
    ensures ChangeOf(s, a).CloseChannel? ==> ChangeOf(s, a).c in s.conns
    ensures forall c <- Step(s, a).value.conns :: c in s.conns || Step(s, a).value.conns[c].once.Fresh?
  {
    hide Plan, Apply;
    if a.Go? {
      ApplyConnOnce(s, a.t, ChangeOf(s, a), 0);
    }
  }

  lemma StepShutWhenDone(s: Sys, a: Action)
    requires ShutWhenDone(s) && Step(s, a).Some?
    ensures ShutWhenDone(Step(s, a).value)
  {
    hide Plan, Step, Apply, ChangeOf, Applicable;
    var s1 := Step(s, a).value;
    StepThreads(s, a);
    ShutIsKnown(s, a);
    if a.Go? {
      MoveShut(s, s.threads[a.t], a.x);
    } else {
      OtherStep(s, a);
    }
    forall c <- s1.conns | s1.conns[c].once.Done?
      ensures s1.conns[c].closed
    {
      StepConnOnce(s, a, c);
      StepChannel(s, a, c);
    }
    forall t <- s1.threads | AtShut(s1.threads[t]).Some?
      ensures AtShut(s1.threads[t]).value in s1.conns && s1.conns[AtShut(s1.threads[t]).value].closed
    {
      StepChannel(s, a, AtShut(s1.threads[t]).value);
    }
  }

  lemma {:induction false} RunShut(run: seq<Action>)
    requires Exec(INIT, run).Some?
    ensures ShutWhenDone(Exec(INIT, run).value)
    decreases |run|
  {
    hide Step;
    if run != [] {
      RunShut(run[..|run| - 1]);
      StepShutWhenDone(Exec(INIT, run[..|run| - 1]).value, run[|run| - 1]);
    }
  }

  lemma ReachableShut(s: Sys)
    requires Reachable(s)
    ensures ShutWhenDone(s)
  {
    hide Exec, ShutWhenDone;
    var run :| Exec(INIT, run) == Some(s);
    RunShut(run);
  }

  /**
   * A takeover frees its target: any run from there that cannot go on has closed the
   * connections that occupied it, and none of the forwards that they had on it is left,
   * nor any that they set up since.
   */
  lemma TakeoverFreesTarget(s: Sys, t: Tid, r: Req, x: Choice, run: seq<Action>, f: Fwd)
    requires Reachable(s) && TakesStock(s, t, r) && Step(s, Go(t, x)).Some?
    requires Exec(Step(s, Go(t, x)).value, run).Some? && Quiescent(Exec(Step(s, Go(t, x)).value, run).value)
    requires var s2 := Exec(Step(s, Go(t, x)).value, run).value; f in s2.fwds && Occupies(s, s2.fwds[f].conn, r.conn, r.target)
    ensures var s2 := Exec(Step(s, Go(t, x)).value, run).value; s2.fwds[f].once.Done? && f !in s2.listeners
  {
    hide Step, Inv, Exec, Reachable, Occupies, Quiescent, Called, AtRest, ShutWhenDone;
    var s1 := Step(s, Go(t, x)).value;
    var s2 := Exec(s1, run).value;
    StepReaches(s, Go(t, x));
    ReachableOn(s1, run);
    StockTaken(s, t, r, x);
    ReachableInv(s1);
    assert {} + s1.threads[t].main.pc.victims == s1.threads[t].main.pc.victims;
    RunUnderway(s1, run, t, s1.threads[t].main.pc.victims);
    if !AtRest(s2, s2.threads[t]) {
      NoDeadlock(s2, t);
    }
    RestingIsOver(s2, s2.threads[t]);
    TakeoverClosesExactly(s, t, r, x, run);
    ReachableShut(s2);
    ShutNow(s2, s2.fwds[f].conn);
    ClosedIsCleaned(s2, f);
    CleanedIsGone(s2, f);
  }

  lemma ShutNow(s: Sys, c: Conn)
    requires ShutWhenDone(s) && c in s.conns && s.conns[c].once.Done?
    ensures s.conns[c].closed
  {}

  lemma RestingIsOver(s: Sys, th: Thread)
    requires AtRest(s, th)
    ensures !th.main.Handler?
  {}

  lemma StepReaches(s: Sys, a: Action)
    requires Reachable(s) && Step(s, a).Some?
    ensures Reachable(Step(s, a).value)
  {
    hide Step;
    var run :| Exec(INIT, run) == Some(s);
    assert (run + [a])[..|run|] == run;
    assert Exec(INIT, run + [a]) == Step(s, a);
  }

  // ----- that it happens, and what a close does -----

  /** A forced request that has not looked who has its target yet. */
  predicate Before(th: Thread, r: Req) {
    && th.close.None? && th.clean.None?
    && (th.main == Handler(r, Begin) || th.main == Handler(r, WantTarget) || th.main == Handler(r, Disconnect))
  }

  lemma MoveBefore(s: Sys, th: Thread, r: Req, x: Choice)
    requires Plan(s, th, x).Some? && r.force
    ensures Before(th, r) && th.main.pc != Disconnect ==> Before(Plan(s, th, x).value.th, r) || Plan(s, th, x).value.th.main.Finished?
    ensures th.main.Finished? ==> Plan(s, th, x).value.th.main.Finished?
  {
    hide OpenMove;
    if th.clean.Some? {
      CleanKeepsMain(s, th);
    } else if th.close.Some? {
      CloseKeepsMain(s, th, x);
    }
  }

  lemma StepBefore(s: Sys, a: Action, t: Tid, r: Req)
    requires Step(s, a).Some? && t in s.threads && r.force
    requires Before(s.threads[t], r) || s.threads[t].main.Finished?
    ensures var s1 := Step(s, a).value;
      && t in s1.threads
      && (Before(s1.threads[t], r) || s1.threads[t].main.Finished? || (TakesStock(s, t, r) && a.Go? && a.t == t))
  {
    hide Plan, Step, ChangeOf, Applicable;
    StepThreads(s, a);
    if a.Go? && a.t == t {
      MoveBefore(s, s.threads[t], r, a.x);
    } else {
      assert Step(s, a).value.threads[t] == s.threads[t];
    }
  }

  lemma {:induction false} ExecFront(s: Sys, run: seq<Action>, n: nat)
    requires Exec(s, run).Some? && n <= |run|
    ensures Exec(s, run[..n]).Some?
    ensures n > 0 ==> Exec(s, run[..n - 1]).Some? && Exec(s, run[..n]) == Step(Exec(s, run[..n - 1]).value, run[n - 1])
    decreases |run|
  {
    hide Step;
    if n < |run| {
      ExecFront(s, run[..|run| - 1], n);
      assert run[..|run| - 1][..n] == run[..n];
      assert n > 0 ==> run[..|run| - 1][..n - 1] == run[..n - 1];
    } else {
      assert run[..n] == run;
    }
  }

  /**
   * A forced request that gets as far as making its forward has first, at some step n
   * of its own, taken stock of who had its target: TakeoverClosesExactly says what came
   * of that.
   */
  lemma {:induction false} ForcedTakesStock(s: Sys, run: seq<Action>, t: Tid, r: Req) returns (n: nat)
    requires Exec(s, run).Some? && r.force && t in s.threads && s.threads[t] == Thread(Handler(r, Begin), None, None)
    requires var th := Exec(s, run).value.threads; t in th && th[t].main.Handler? && Over(th[t])
    ensures n < |run| && Exec(s, run[..n]).Some? && TakesStock(Exec(s, run[..n]).value, t, r) && run[n].Go? && run[n].t == t
  {
    hide Step, Exec;
    n := 0;
    ExecFront(s, run, 0);
    ExecNothing(s);
    assert run[..0] == [];
    assert run[..|run|] == run;
    while true
      invariant n <= |run| && Exec(s, run[..n]).Some?
      invariant var th := Exec(s, run[..n]).value.threads; t in th && (Before(th[t], r) || th[t].main.Finished?)
      decreases |run| - n
    {
      ExecFront(s, run, n + 1);
      assert run[..n + 1][..n] == run[..n];
      StepBefore(Exec(s, run[..n]).value, run[n], t, r);
      var th := Exec(s, run[..n + 1]).value.threads[t];
      if !(Before(th, r) || th.main.Finished?) {
        return;
      }
      n := n + 1;
    }
  }

  lemma ExecNothing(s: Sys)
    ensures Exec(s, []) == Some(s)
  {}

  /** t is closing c: of the cleanups fs that it found, those not pending are over or being run by it. */
  ghost predicate Emptying(s: Sys, t: Tid, c: Conn, fs: set<Fwd>) {
    && t in s.threads
    && var th := s.threads[t];
       if th.close.Some? && th.close.value.c == c && th.close.value.pc.CRun? then
         forall f <- fs :: f in th.close.value.pc.pending || FwdOnce(s, f).Done? || (th.clean.Some? && th.clean.value.f == f)
       else forall f <- fs :: FwdOnce(s, f).Done?
  }

  lemma MoveEmptying(s: Sys, th: Thread, x: Choice)
    requires Parked(th) && Plan(s, th, x).Some?
    ensures var m := Plan(s, th, x).value;
      && (th.close.Some? && th.close.value.pc.CRun? ==>
            if m.th.close.Some? && m.th.close.value.pc.CRun? then
              && m.th.close.value.c == th.close.value.c
              && (forall f <- th.close.value.pc.pending ::
                    f in m.th.close.value.pc.pending || (m.th.clean.Some? && m.th.clean.value.f == f))
            else th.close.value.pc.pending == {} && th.clean.None? && m.th.clean.None?)
      && (th.clean.Some? && m.th.clean.Some? ==> m.th.clean.value.f == th.clean.value.f)
      && (th.clean.Some? && m.th.clean.None? ==>
            m.ch == EndClean(th.clean.value.f) || FwdOnce(s, th.clean.value.f).Done?)
  {
    hide OpenMove;
    if th.clean.None? && th.close.None? && th.main.Handler? && th.main.pc.Open? && x.Opens? {
      OpenKeepsReq(s, th, x.o);
    }
  }

  lemma MoveEntersRun(s: Sys, th: Thread, x: Choice)
    requires Parked(th) && Plan(s, th, x).Some?
    ensures var m := Plan(s, th, x).value;
      m.th.close.Some? && m.th.close.value.pc.CRun? ==>
        th.close.Some? && th.close.value.c == m.th.close.value.c && (th.close.value.pc.CRun? || th.close.value.pc.CWon?)
  {
    hide OpenMove;
    if th.clean.None? && th.close.None? && th.main.Handler? && th.main.pc.Open? && x.Opens? {
      OpenKeepsReq(s, th, x.o);
    }
  }

  /** What is done stays done, so a step of another thread, or of this one's cleanup call, keeps it. */
  lemma StepEmptying(s: Sys, a: Action, t: Tid, c: Conn, fs: set<Fwd>)
    requires AllParked(s) && CloseOwned(s) && Step(s, a).Some? && Emptying(s, t, c, fs) && c in s.conns && !s.conns[c].once.Fresh?
    requires !(t in s.threads && s.threads[t].close == Some(CloseCall(c, CWon)))
    ensures Emptying(Step(s, a).value, t, c, fs)
  {
    hide Plan, Step, Apply, ChangeOf, Applicable;
    var s1 := Step(s, a).value;
    StepThreads(s, a);
    if a.Go? && a.t == t {
      MoveEmptying(s, s.threads[t], a.x);
      MoveEntersRun(s, s.threads[t], a.x);
    } else {
      assert s1.threads[t] == s.threads[t];
    }
    forall f <- fs
      ensures FwdOnce(s, f).Done? ==> FwdOnce(s1, f).Done?
      ensures ChangeOf(s, a) == EndClean(f) ==> FwdOnce(s1, f).Done?
    {
      StepFwdOnce(s, a, f);
    }
  }

  lemma MoveWins(s: Sys, th: Thread, x: Choice, c: Conn)
    requires Parked(th) && Plan(s, th, x).Some?
    ensures var m := Plan(s, th, x).value;
      m.th.close == Some(CloseCall(c, CWon)) ==> th.close == m.th.close || m.ch == BeginClose(c)
  {
    hide OpenMove, CleanMove;
    if th.clean.Some? {
      hide CloseMove, HandlerMove, MainMove;
      CleanKeepsMain(s, th);
    } else if th.close.None? && th.main.Handler? && th.main.pc.Open? && x.Opens? {
      OpenKeepsReq(s, th, x.o);
    }
  }

  /** Past the start of the close, with what it found. */
  ghost predicate Found(s: Sys, t: Tid, c: Conn, fs: set<Fwd>) {
    && Emptying(s, t, c, fs) && c in s.conns && !s.conns[c].once.Fresh?
    && !(t in s.threads && s.threads[t].close == Some(CloseCall(c, CWon)))
  }

  lemma StepFound(s: Sys, a: Action, t: Tid, c: Conn, fs: set<Fwd>)
    requires AllParked(s) && CloseOwned(s) && Step(s, a).Some? && Found(s, t, c, fs)
    ensures Found(Step(s, a).value, t, c, fs)
  {
    hide Plan, Step, Apply, ChangeOf, Applicable, Emptying, Parked;
    StepEmptying(s, a, t, c, fs);
    StepConnOnce(s, a, c);
    StepThreads(s, a);
    if a.Go? && a.t == t {
      MoveWins(s, s.threads[t], a.x, c);
    }
  }

  lemma {:induction false} RunFound(s: Sys, run: seq<Action>, t: Tid, c: Conn, fs: set<Fwd>)
    requires Inv(s) && Exec(s, run).Some? && Found(s, t, c, fs)
    ensures Inv(Exec(s, run).value) && Found(Exec(s, run).value, t, c, fs)
    decreases |run|
  {
    hide Step, Inv, Found;
    if run != [] {
      var n := |run| - 1;
      RunFound(s, run[..n], t, c, fs);
      var mid := Exec(s, run[..n]).value;
      InvClosers(mid);
      InvOwners(mid);
      StepInv(mid, run[n]);
      StepFound(mid, run[n], t, c, fs);
    }
  }

  lemma FoundAtOnce(s: Sys, t: Tid, c: Conn, fs: set<Fwd>)
    requires Inv(s) && t in s.threads && s.threads[t].close == Some(CloseCall(c, CWon)) && Step(s, Go(t, Snapshot(fs))).Some?
    ensures Found(Step(s, Go(t, Snapshot(fs))).value, t, c, fs)
  {
    hide Plan, Step, Apply, Applicable, ChangeOf, Inv;
    var a := Go(t, Snapshot(fs));
    InvClosers(s);
    InvOwners(s);
    WinnerCloses(s, t, c);
    StepThreads(s, a);
    WonMoves(s, s.threads[t], fs);
    StepConnOnce(s, a, c);
    assert Step(s, a).value.threads[t].close == Some(CloseCall(c, CRun(fs)));
  }

  lemma WinnerCloses(s: Sys, t: Tid, c: Conn)
    requires AllParked(s) && CloseOwned(s) && t in s.threads && s.threads[t].close == Some(CloseCall(c, CWon))
    ensures Parked(s.threads[t]) && c in s.conns && s.conns[c].once == Running(t)
  {
    assert Closing(s.threads[t]) == Some(c);
  }

  lemma WonMoves(s: Sys, th: Thread, fs: set<Fwd>)
    requires Parked(th) && th.close.Some? && th.close.value.pc.CWon? && Plan(s, th, Snapshot(fs)).Some?
    ensures Plan(s, th, Snapshot(fs)).value == Move(th.(close := Some(CloseCall(th.close.value.c, CRun(fs)))), Nothing)
  {}

  /**
   * A close runs the cleanups that it finds before it is over: from the step in which t
   * has looked at them, in any run that brings it past its close of c, each is done.
   */
  lemma CloseRunsCleanups(s: Sys, t: Tid, c: Conn, fs: set<Fwd>, run: seq<Action>)
    requires Reachable(s) && t in s.threads && s.threads[t].close == Some(CloseCall(c, CWon)) && Step(s, Go(t, Snapshot(fs))).Some?
    requires Exec(Step(s, Go(t, Snapshot(fs))).value, run).Some?
    requires var th := Exec(Step(s, Go(t, Snapshot(fs))).value, run).value.threads;
      t in th && !(th[t].close.Some? && th[t].close.value.c == c && th[t].close.value.pc.CRun?)
    ensures var s2 := Exec(Step(s, Go(t, Snapshot(fs))).value, run).value; forall f <- fs :: f in s2.fwds && s2.fwds[f].once.Done?
  {
    hide Step, Exec, Inv, Reachable;
    ReachableInv(s);
    FoundAtOnce(s, t, c, fs);
    StepInv(s, Go(t, Snapshot(fs)));
    RunFound(Step(s, Go(t, Snapshot(fs))).value, run, t, c, fs);
  }
}

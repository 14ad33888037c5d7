// References stay valid, a forward still being set up is known to its handler
// alone, and a forward whose cleanup has not begun always has a thread that
// will see to it.

module ForwardSetup {
  import opened Options
  import opened ForwardModel
  import opened ForwardOwners

  // ----- what a thread names -----

  /** The forward a request handler is still setting up. */
  function Early(th: Thread): Option<Fwd> {
    if th.main.Handler? then
      match th.main.pc
      case Count(f) => Some(f)
      case WantBind(f) => Some(f)
      case Open(f) => Some(f)
      case AddConn(f, _) => Some(f)
      case AddServer(f, _) => Some(f)
      case ReleaseBind(f, _) => Some(f)
      case Register(f) => Some(f)
      case _ => None
    else None
  }

  /** The forwards a thread may clean up or watch: their setup is over. */
  function Late(th: Thread): set<Fwd> {
    (if th.clean.Some? then {th.clean.value.f} else {})
    + (if th.close.Some? && th.close.value.pc.CRun? then th.close.value.pc.pending else {})
    + (match th.main
       case Watcher(f) => {f}
       case Acceptor(f) => {f}
       case Handler(_, Watch(f)) => {f}
       case Handler(_, Reply(f)) => {f}
       case _ => {})
  }

  /** The thread will run the cleanup of f, or is running or awaiting it, once the connection closes. */
  predicate Keeps(th: Thread, f: Fwd) {
    || Early(th) == Some(f)
    || (th.main.Handler? && th.main.pc == Watch(f))
    || th.main == Watcher(f)
    || (th.clean.Some? && th.clean.value.f == f)
  }

  function ConnsOf(th: Thread): set<Conn> {
    (if th.close.Some? then {th.close.value.c} else {})
    + (match th.main
       case Handler(r, pc) => {r.conn} + (if pc.Takeover? then pc.victims else {})
       case Closer(c) => {c}
       case _ => {})
  }

  // ----- the invariant -----

  ghost predicate Refs(s: Sys) {
    && (forall f <- s.fwds :: s.fwds[f].conn in s.conns)
    && (forall t <- s.threads :: ConnsOf(s.threads[t]) <= s.conns.Keys)
    && (forall t <- s.threads :: s.threads[t].main.Canceller? ==> s.threads[t].main.f in s.fwds)
  }

  /** Cleanup callbacks and late threads only ever concern forwards whose setup is over. */
  ghost predicate SetupOver(s: Sys) {
    && (forall c <- s.conns, f <- s.conns[c].cleanups :: f in s.fwds && !s.fwds[f].setup)
    && (forall t <- s.threads, f <- Late(s.threads[t]) :: f in s.fwds && !s.fwds[f].setup)
  }

  ghost predicate SetupOwned(s: Sys) {
    && (forall t <- s.threads :: Early(s.threads[t]).Some? ==>
          (var f := Early(s.threads[t]).value;
           f in s.fwds && s.fwds[f].setup && s.fwds[f].keeper == t && s.threads[t].main.req.conn == s.fwds[f].conn))
    && (forall f <- s.fwds :: s.fwds[f].setup ==> s.fwds[f].once.Fresh?)
  }

  ghost predicate Kept(s: Sys) {
    && (forall f <- s.fwds :: s.fwds[f].done ==> !s.fwds[f].once.Fresh?)
    && (forall f <- s.fwds :: s.fwds[f].once.Fresh? ==>
          s.fwds[f].keeper in s.threads && Keeps(s.threads[s.fwds[f].keeper], f))
  }

  // ----- one thread's move -----

  lemma MoveConns(s: Sys, th: Thread, x: Choice)
    requires Parked(th) && Plan(s, th, x).Some?
    requires forall f <- s.fwds :: s.fwds[f].conn in s.conns
    ensures ConnsOf(Plan(s, th, x).value.th) <= ConnsOf(th) + s.conns.Keys
  {
    hide CleanMove, OpenMove, CloseMove;
    if th.clean.Some? {
      CleanKeepsMain(s, th);
    } else if th.close.Some? {
      CloseKeepsMain(s, th, x);
    } else if th.main.Handler? && th.main.pc.Open? && x.Opens? {
      OpenKeepsReq(s, th, x.o);
    }
  }

  lemma CloseKeepsMain(s: Sys, th: Thread, x: Choice)
    requires th.close.Some? && CloseMove(s, th, x).Some?
    ensures var m := CloseMove(s, th, x).value;
            && m.th.main == th.main
            && (m.th.close.Some? ==> m.th.close.value.c == th.close.value.c)
  {}

  lemma CleanKeepsMain(s: Sys, th: Thread)
    requires th.clean.Some? && CleanMove(s, th).Some?
    ensures var m := CleanMove(s, th).value;
            && m.th.main == th.main && m.th.close == th.close
            && (m.th.clean.Some? ==> m.th.clean.value.f == th.clean.value.f)
  {}

  /** What a cleanup does to shared state. */
  predicate CleanKind(ch: Change) {
    ch.Nothing? || ch.LockBind? || ch.UnlockBind? || ch.BeginClean? || ch.SignalDone? || ch.CloseListener? || ch.DropListener?
    || ch.DropCleanup? || ch.DropServer? || ch.DropConn? || ch.DropRoute? || ch.CountCleaned? || ch.EndClean?
  }

  /** What a close does to it. */
  predicate CloseKind(ch: Change) {
    ch.Nothing? || ch.BeginClose? || ch.CloseChannel? || ch.EndClose?
  }

  lemma CleanChanges(s: Sys, th: Thread)
    requires th.clean.Some? && CleanMove(s, th).Some?
    ensures CleanKind(CleanMove(s, th).value.ch)
  {}

  lemma CloseChanges(s: Sys, th: Thread, x: Choice)
    requires th.close.Some? && CloseMove(s, th, x).Some?
    ensures CloseKind(CloseMove(s, th, x).value.ch)
    ensures CloseMove(s, th, x).value.th.clean.Some? ==>
      CloseMove(s, th, x).value.th.clean == th.clean || CloseMove(s, th, x).value.th.clean.value.pc.KWant?
  {}

  lemma OpenKeepsReq(s: Sys, th: Thread, o: Opening)
    requires th.main.Handler? && th.main.pc.Open? && OpenMove(s, th, o).Some?
    ensures var m := OpenMove(s, th, o).value;
            && m.th.main.Handler? && m.th.main.req == th.main.req && m.th.close == th.close && m.th.clean == th.clean
            && Early(m.th) == Early(th) && (m.ch.Purge? || m.ch.Store? || m.ch.BindTcp?)
            && !m.th.main.pc.Takeover?
            && (m.th.main.pc.AddConn? || m.th.main.pc.ReleaseBind?)
  {}

  /** A handler names a forward from its creation until it registers it or gives up. */
  lemma MoveEarly(s: Sys, th: Thread, x: Choice)
    requires Parked(th) && Plan(s, th, x).Some?
    ensures var m := Plan(s, th, x).value;
            if m.ch.NewForward? then
              && Early(th).None? && Early(m.th) == Some(m.ch.f)
              && th.main.Handler? && m.th.main.Handler? && m.ch.conn == th.main.req.conn == m.th.main.req.conn
            else if m.ch.AddCleanup? || m.ch.GiveUp? then Early(th) == Some(m.ch.f) && Early(m.th).None?
            else Early(m.th) == Early(th) && (Early(th).Some? ==> m.th.main.Handler? && m.th.main.req == th.main.req)
  {
    hide CleanMove, CloseMove, OpenMove;
    if th.clean.Some? {
      CleanChanges(s, th);
      CleanKeepsMain(s, th);
    } else if th.close.Some? {
      CloseChanges(s, th, x);
      CloseKeepsMain(s, th, x);
    } else if th.main.Handler? && th.main.pc.Open? && x.Opens? {
      OpenKeepsReq(s, th, x.o);
    }
  }

  lemma CloseLate(s: Sys, th: Thread, x: Choice, f: Fwd)
    requires Parked(th) && th.clean.None? && th.close.Some? && CloseMove(s, th, x).Some?
    requires f in Late(CloseMove(s, th, x).value.th)
    ensures f in Late(th) || exists c <- s.conns :: f in s.conns[c].cleanups
  {}

  lemma HandlerLate(s: Sys, th: Thread, x: Choice, f: Fwd)
    requires Parked(th) && th.clean.None? && th.close.None? && th.main.Handler? && HandlerMove(s, th, x).Some?
    requires f in Late(HandlerMove(s, th, x).value.th)
    ensures var ch := HandlerMove(s, th, x).value.ch;
            f in Late(th) || ch == AddCleanup(f) || ch == GiveUp(f)
  {
    hide OpenMove;
    if th.main.pc.Open? && x.Opens? {
      OpenKeepsReq(s, th, x.o);
    }
  }

  lemma OtherLate(s: Sys, th: Thread, x: Choice, f: Fwd)
    requires Parked(th) && th.clean.None? && th.close.None? && !th.main.Handler? && MainMove(s, th, x).Some?
    requires f in Late(MainMove(s, th, x).value.th)
    ensures f in Late(th) || exists c <- s.conns :: f in s.conns[c].cleanups
  {
    hide HandlerMove;
  }

  lemma MoveLate(s: Sys, th: Thread, x: Choice, f: Fwd)
    requires Parked(th) && Plan(s, th, x).Some?
    requires f in Late(Plan(s, th, x).value.th)
    ensures var ch := Plan(s, th, x).value.ch;
            || f in Late(th)
            || ch == AddCleanup(f) || ch == GiveUp(f)
            || exists c <- s.conns :: f in s.conns[c].cleanups
  {
    if th.clean.Some? {
      hide CleanMove, CloseMove, MainMove;
      CleanKeepsMain(s, th);
    } else if th.close.Some? {
      hide CleanMove, CloseMove, MainMove;
      CloseLate(s, th, x, f);
    } else if th.main.Handler? {
      hide CleanMove, CloseMove, HandlerMove;
      HandlerLate(s, th, x, f);
    } else {
      hide CleanMove, CloseMove, MainMove;
      OtherLate(s, th, x, f);
    }
  }

  lemma CleanTouches(s: Sys, th: Thread)
    requires th.clean.Some? && CleanMove(s, th).Some?
    ensures var ch := CleanMove(s, th).value.ch;
            && (ch.BeginClean? || ch.EndClean? || ch.SignalDone? ==> ch.f == th.clean.value.f)
            && (ch.SignalDone? || ch.EndClean? ==> Cleaning(th) == Some(ch.f))
  {}

  /** Threads change a forward's cleanup only through a call of it. */
  lemma MoveTouches(s: Sys, th: Thread, x: Choice)
    requires Parked(th) && Plan(s, th, x).Some?
    ensures var m := Plan(s, th, x).value;
            && (m.ch.BeginClean? || m.ch.EndClean? || m.ch.SignalDone? ==> m.ch.f in Late(th))
            && (m.ch.SignalDone? || m.ch.EndClean? ==> Cleaning(th) == Some(m.ch.f))
            && (m.ch.Start? ==> m.ch.main.f in Late(th) && Late(Thread(m.ch.main, None, None)) == {m.ch.main.f})
  {
    hide CleanMove, CloseMove, OpenMove;
    if th.clean.Some? {
      CleanChanges(s, th);
      CleanTouches(s, th);
    } else if th.close.Some? {
      CloseChanges(s, th, x);
    } else if th.main.Handler? && th.main.pc.Open? && x.Opens? {
      OpenKeepsReq(s, th, x.o);
    }
  }

  /** A keeper hands over to the watcher it starts, begins the cleanup, or finds it begun. */
  lemma MoveKeeps(s: Sys, th: Thread, x: Choice, f: Fwd)
    requires Parked(th) && Plan(s, th, x).Some? && Keeps(th, f)
    ensures var m := Plan(s, th, x).value;
            || Keeps(m.th, f)
            || Cleaning(th) == Some(f)
            || m.ch == BeginClean(f) || (m.ch.Start? && m.ch.main == Watcher(f))
            || (f in s.fwds && (s.fwds[f].done || !s.fwds[f].once.Fresh?))
  {
    hide OpenMove;
    if th.clean.None? && th.close.None? && th.main.Handler? && th.main.pc.Open? && x.Opens? {
      OpenKeepsReq(s, th, x.o);
    }
  }

  // ----- one step, forward by forward -----

  lemma ApplyFwd(s: Sys, t: Tid, ch: Change, f: Fwd)
    requires Applicable(s, ch) && f in s.fwds
    ensures var s1 := Apply(s, t, ch);
            && f in s1.fwds
            && s1.fwds[f].conn == s.fwds[f].conn
            && s1.fwds[f].setup == (s.fwds[f].setup && ch != AddCleanup(f) && ch != GiveUp(f))
            && s1.fwds[f].done == (s.fwds[f].done || ch == SignalDone(f))
            && s1.fwds[f].keeper == (if ch.Start? && ch.main == Watcher(f) then ch.w else s.fwds[f].keeper)
  {
    ApplyFwds(s, t, ch);
    if ch.NewForward? {
      NewIsFresh(t, ch);
    } else {
      FieldsAfter(s.fwds[f], t, ch, f);
    }
    hide Apply, Applicable, Touched, FwdAfter, Changed;
  }

  lemma ApplyNew(s: Sys, t: Tid, ch: Change, f: Fwd)
    requires Applicable(s, ch) && f !in s.fwds
    ensures var s1 := Apply(s, t, ch);
            if ch.NewForward? && ch.f == f then
              f in s1.fwds && s1.fwds[f] == Forward(ch.conn, ch.target, Fresh, 0, false, false, Unset, true, t, false, false)
            else f !in s1.fwds
  {
    ApplyFwds(s, t, ch);
    if ch.NewForward? {
      NewIsFresh(t, ch);
    }
    hide Apply, Applicable, Touched, FwdAfter, Changed;
  }

  lemma ApplyCleanups(s: Sys, t: Tid, ch: Change, c: Conn)
    requires Applicable(s, ch) && c in s.conns
    ensures var s1 := Apply(s, t, ch);
            && s1.conns.Keys == s.conns.Keys
            && (forall f <- s1.conns[c].cleanups :: f in s.conns[c].cleanups || ch == AddCleanup(f))
            && s1.conns[c].closed == (s.conns[c].closed || ch == CloseChannel(c))
  {
    ApplyConns(s, t, ch);
    hide Apply;
  }

  lemma StepFwd(s: Sys, a: Action, f: Fwd)
    requires Step(s, a).Some? && f in s.fwds
    ensures var s1, ch := Step(s, a).value, ChangeOf(s, a);
            && f in s1.fwds
            && s1.fwds[f].conn == s.fwds[f].conn
            && s1.fwds[f].setup == (s.fwds[f].setup && ch != AddCleanup(f) && ch != GiveUp(f))
            && s1.fwds[f].done == (s.fwds[f].done || ch == SignalDone(f))
            && s1.fwds[f].keeper == (if ch.Start? && ch.main == Watcher(f) then ch.w else s.fwds[f].keeper)
  {
    hide Plan, Step, Apply, ChangeOf;
    if a.Go? {
      var m, _ := GoStep(s, a);
      ApplyFwd(s, a.t, m.ch, f);
    } else {
      OtherStep(s, a);
    }
  }

  lemma StepNew(s: Sys, a: Action, f: Fwd)
    requires Step(s, a).Some? && f !in s.fwds
    ensures var s1, ch := Step(s, a).value, ChangeOf(s, a);
            if ch.NewForward? && ch.f == f then
              a.Go? && f in s1.fwds && s1.fwds[f] == Forward(ch.conn, ch.target, Fresh, 0, false, false, Unset, true, a.t, false, false)
            else f !in s1.fwds
  {
    hide Plan, Step, Apply, ChangeOf;
    if a.Go? {
      var m, _ := GoStep(s, a);
      ApplyNew(s, a.t, m.ch, f);
    } else {
      OtherStep(s, a);
    }
  }

  lemma StepConns(s: Sys, a: Action)
    requires Step(s, a).Some?
    ensures s.conns.Keys <= Step(s, a).value.conns.Keys
    ensures forall c <- Step(s, a).value.conns, f <- Step(s, a).value.conns[c].cleanups ::
              (c in s.conns && f in s.conns[c].cleanups) || ChangeOf(s, a) == AddCleanup(f)
  {
    hide Plan, Step, Apply, ChangeOf;
    if a.Go? {
      var m, _ := GoStep(s, a);
      forall c <- s.conns
        ensures Step(s, a).value.conns.Keys == s.conns.Keys
        ensures forall f <- Step(s, a).value.conns[c].cleanups :: f in s.conns[c].cleanups || m.ch == AddCleanup(f)
      {
        ApplyCleanups(s, a.t, m.ch, c);
      }
      ApplyConnOnce(s, a.t, m.ch, 0);
    } else {
      OtherStep(s, a);
    }
  }

  // ----- every step keeps it -----

  lemma StepRefs(s: Sys, a: Action)
    requires AllParked(s) && Refs(s) && Step(s, a).Some?
    ensures Refs(Step(s, a).value)
  {
    hide Plan, Step, ChangeOf, Apply, ConnsOf;
    var s1 := Step(s, a).value;
    StepThreads(s, a);
    StepConns(s, a);
    if a.Go? {
      MoveConns(s, s.threads[a.t], a.x);
      MoveEarly(s, s.threads[a.t], a.x);
      MoveCanceller(s, s.threads[a.t], a.x);
      if ChangeOf(s, a).Start? {
        StartedConns(ChangeOf(s, a).main);
      }
    } else {
      OtherStep(s, a);
      if a.Arrive? {
        ArrivedConns(s, a.main);
      }
    }
    forall f <- s1.fwds
      ensures s1.fwds[f].conn in s1.conns
    {
      if f in s.fwds {
        StepFwd(s, a, f);
      } else {
        StepNew(s, a, f);
        HandlerConn(s.threads[a.t]);
      }
    }
    forall t <- s1.threads | s1.threads[t].main.Canceller?
      ensures s1.threads[t].main.f in s1.fwds
    {
      var f := s1.threads[t].main.f;
      if f in s.fwds {
        StepFwd(s, a, f);
      }
    }
  }

  lemma HandlerConn(th: Thread)
    ensures th.main.Handler? ==> th.main.req.conn in ConnsOf(th)
  {}

  lemma StartedConns(main: Main)
    requires main.Watcher? || main.Acceptor?
    ensures ConnsOf(Thread(main, None, None)) == {}
  {}

  lemma ArrivedConns(s: Sys, main: Main)
    requires MayArrive(s, main)
    ensures ConnsOf(Thread(main, None, None)) <= s.conns.Keys
  {}

  lemma MoveCanceller(s: Sys, th: Thread, x: Choice)
    requires Parked(th) && Plan(s, th, x).Some?
    ensures Plan(s, th, x).value.th.main.Canceller? ==> Plan(s, th, x).value.th.main == th.main
  {}

  lemma StepCleanupsOver(s: Sys, a: Action)
    requires AllParked(s) && SetupOver(s) && SetupOwned(s) && Step(s, a).Some?
    ensures var s1 := Step(s, a).value;
            forall c <- s1.conns, f <- s1.conns[c].cleanups :: f in s1.fwds && !s1.fwds[f].setup
  {
    hide Plan, Step, ChangeOf, Apply, Late;
    var s1 := Step(s, a).value;
    StepConns(s, a);
    StepThreads(s, a);
    if a.Go? {
      MoveEarly(s, s.threads[a.t], a.x);
    } else {
      OtherStep(s, a);
    }
    forall c <- s1.conns, f <- s1.conns[c].cleanups
      ensures f in s1.fwds && !s1.fwds[f].setup
    {
      if ChangeOf(s, a) == AddCleanup(f) {
        assert Early(s.threads[a.t]) == Some(f);
      } else {
        assert c in s.conns && f in s.conns[c].cleanups;
      }
      StepFwd(s, a, f);
    }
  }

  lemma StepLateOver(s: Sys, a: Action, t: Tid, f: Fwd)
    requires AllParked(s) && SetupOver(s) && SetupOwned(s) && Step(s, a).Some?
    requires t in Step(s, a).value.threads && f in Late(Step(s, a).value.threads[t])
    ensures var s1 := Step(s, a).value; f in s1.fwds && !s1.fwds[f].setup
  {
    hide Plan, Step, ChangeOf, Apply, Late;
    StepThreads(s, a);
    if a.Go? {
      MoveEarly(s, s.threads[a.t], a.x);
      MoveTouches(s, s.threads[a.t], a.x);
      if t == a.t {
        MoveLate(s, s.threads[t], a.x, f);
      }
    } else {
      OtherStep(s, a);
      if a.Arrive? {
        ArrivedLate(s, a.main);
      }
    }
    StepFwd(s, a, f);
  }

  lemma StepSetupOver(s: Sys, a: Action)
    requires AllParked(s) && SetupOver(s) && SetupOwned(s) && Step(s, a).Some?
    ensures SetupOver(Step(s, a).value)
  {
    hide Plan, Step, ChangeOf, Apply, Late;
    var s1 := Step(s, a).value;
    StepCleanupsOver(s, a);
    forall t <- s1.threads, f <- Late(s1.threads[t])
      ensures f in s1.fwds && !s1.fwds[f].setup
    {
      StepLateOver(s, a, t, f);
    }
  }

  lemma ArrivedLate(s: Sys, main: Main)
    requires MayArrive(s, main)
    ensures Late(Thread(main, None, None)) == {} && Early(Thread(main, None, None)).None?
  {}

  lemma StepSetupOwned(s: Sys, a: Action)
    requires AllParked(s) && SetupOver(s) && SetupOwned(s) && Step(s, a).Some?
    ensures SetupOwned(Step(s, a).value)
  {
    hide Plan, Step, ChangeOf, Apply, Late, Early;
    var s1, ch := Step(s, a).value, ChangeOf(s, a);
    StepThreads(s, a);
    if a.Go? {
      MoveEarly(s, s.threads[a.t], a.x);
      MoveTouches(s, s.threads[a.t], a.x);
    } else {
      OtherStep(s, a);
      if a.Arrive? {
        ArrivedLate(s, a.main);
      }
    }
    forall t <- s1.threads | Early(s1.threads[t]).Some?
      ensures (var f := Early(s1.threads[t]).value;
               && f in s1.fwds && s1.fwds[f].setup && s1.fwds[f].keeper == t
               && s1.threads[t].main.Handler? && s1.threads[t].main.req.conn == s1.fwds[f].conn)
    {
      var f := Early(s1.threads[t]).value;
      EarlyIsHandler(s1.threads[t]);
      StartedEarly(ch);
      if f in s.fwds {
        StepFwd(s, a, f);
      } else {
        StepNew(s, a, f);
      }
    }
    forall f <- s1.fwds | s1.fwds[f].setup
      ensures s1.fwds[f].once.Fresh?
    {
      StepFwdOnce(s, a, f);
      if f in s.fwds {
        StepFwd(s, a, f);
      }
    }
  }

  lemma EarlyIsHandler(th: Thread)
    ensures Early(th).Some? ==> th.main.Handler?
  {}

  lemma StartedEarly(ch: Change)
    ensures ch.Start? && (ch.main.Watcher? || ch.main.Acceptor?) ==> Early(Thread(ch.main, None, None)).None?
  {}

  lemma StepKept(s: Sys, a: Action)
    requires AllParked(s) && CleanOwned(s) && SetupOver(s) && SetupOwned(s) && Kept(s) && Step(s, a).Some?
    ensures Kept(Step(s, a).value)
  {
    hide Plan, Step, ChangeOf, Apply, Late, Early, Keeps;
    var s1, ch := Step(s, a).value, ChangeOf(s, a);
    StepThreads(s, a);
    if a.Go? {
      MoveTouches(s, s.threads[a.t], a.x);
    } else {
      OtherStep(s, a);
    }
    forall f <- s1.fwds
      ensures s1.fwds[f].done ==> !s1.fwds[f].once.Fresh?
      ensures s1.fwds[f].once.Fresh? ==>
                s1.fwds[f].keeper in s1.threads && Keeps(s1.threads[s1.fwds[f].keeper], f)
    {
      StepFwdOnce(s, a, f);
      if f in s.fwds {
        StepFwd(s, a, f);
        var k := s.fwds[f].keeper;
        WatcherKeeps(f);
        if a.Go? && k == a.t && s1.fwds[f].once.Fresh? {
          MoveKeeps(s, s.threads[k], a.x, f);
        }
      } else {
        StepNew(s, a, f);
        MoveEarly(s, s.threads[a.t], a.x);
        EarlyKeeps(s1.threads[a.t], f);
      }
    }
  }

  lemma WatcherKeeps(f: Fwd)
    ensures Keeps(Thread(Watcher(f), None, None), f)
  {}

  lemma EarlyKeeps(th: Thread, f: Fwd)
    requires Early(th) == Some(f)
    ensures Keeps(th, f)
  {}
}

// Who holds what: in every reachable state each lock and each once-guard is
// held by exactly the thread whose program counter is inside it.

module ForwardOwners {
  import opened Options
  import opened ForwardModel

  predicate HoldsBind(th: Thread) {
    || (th.clean.Some? && var pc := th.clean.value.pc; pc.KServer? || pc.KConn? || pc.KRoute? || pc.KRelease?)
    || (th.main.Handler? && var pc := th.main.pc; pc.Open? || pc.AddConn? || pc.AddServer? || pc.ReleaseBind?)
  }

  /** The forward whose once-guarded cleanup the thread is inside. */
  function Cleaning(th: Thread): Option<Fwd> {
    if th.clean.Some? && !th.clean.value.pc.KWant? then Some(th.clean.value.f) else None
  }

  /** The connection whose once-guarded CleanUp the thread is inside. */
  function Closing(th: Thread): Option<Conn> {
    if th.close.Some? && !th.close.value.pc.CWant? then Some(th.close.value.c) else None
  }

  /** The target whose force-connect lock the thread holds. */
  function Holding(th: Thread): Option<Target> {
    if th.main.Handler? && th.main.req.force && !th.main.pc.Begin? && !th.main.pc.WantTarget?
    then Some(th.main.req.target) else None
  }

  // ----- the invariant -----

  /** A thread inside a call has parked its main program where it holds no bind lock. */
  predicate Parked(th: Thread) {
    && (th.clean.Some? && th.close.None? ==>
          th.main.Finished? || (th.main.Handler? && th.main.pc.Exit?))
    && (th.close.Some? ==>
          th.main.Finished? || (th.main.Handler? && th.main.pc.Takeover?))
    && (th.close.Some? && th.clean.Some? ==> th.close.value.pc.CRun?)
    && (th.main.Handler? && (th.main.pc.WantTarget? || th.main.pc.Disconnect? || th.main.pc.Takeover?) ==> th.main.req.force)
  }

  ghost predicate AllParked(s: Sys) {
    forall t <- s.threads :: Parked(s.threads[t])
  }

  ghost predicate BindOwned(s: Sys) {
    && (s.bind.Some? ==> s.bind.value in s.threads)
    && (forall t <- s.threads :: HoldsBind(s.threads[t]) <==> s.bind == Some(t))
  }

  ghost predicate CleanOwned(s: Sys) {
    && (forall f <- s.fwds :: s.fwds[f].once.Running? ==>
          s.fwds[f].once.tid in s.threads && Cleaning(s.threads[s.fwds[f].once.tid]) == Some(f))
    && (forall t <- s.threads :: Cleaning(s.threads[t]).Some? ==>
          Cleaning(s.threads[t]).value in s.fwds && s.fwds[Cleaning(s.threads[t]).value].once == Running(t))
  }

  ghost predicate CloseOwned(s: Sys) {
    && (forall c <- s.conns :: s.conns[c].once.Running? ==>
          s.conns[c].once.tid in s.threads && Closing(s.threads[s.conns[c].once.tid]) == Some(c))
    && (forall t <- s.threads :: Closing(s.threads[t]).Some? ==>
          Closing(s.threads[t]).value in s.conns && s.conns[Closing(s.threads[t]).value].once == Running(t))
  }

  ghost predicate TargetOwned(s: Sys) {
    && (forall k <- s.targets :: s.targets[k] in s.threads && Holding(s.threads[s.targets[k]]) == Some(k))
    && (forall t <- s.threads :: Holding(s.threads[t]).Some? ==>
          Holding(s.threads[t]).value in s.targets && s.targets[Holding(s.threads[t]).value] == t)
  }

  ghost predicate Owned(s: Sys) {
    AllParked(s) && BindOwned(s) && CleanOwned(s) && CloseOwned(s) && TargetOwned(s)
  }

  // ----- one thread's move -----

  /** A thread enters or leaves the bind lock exactly when it takes or frees it. */
  predicate BindMoves(th: Thread, m: Move) {
    && (m.ch.LockBind? <==> !HoldsBind(th) && HoldsBind(m.th))
    && (m.ch.UnlockBind? || m.ch.GiveUp? <==> HoldsBind(th) && !HoldsBind(m.th))
  }

  /** The same of a forward's cleanup, a connection's close and a target's lock. */
  predicate CleanMoves(th: Thread, m: Move) {
    if m.ch.BeginClean? then Cleaning(th).None? && Cleaning(m.th) == Some(m.ch.f)
    else if m.ch.EndClean? then Cleaning(th) == Some(m.ch.f) && Cleaning(m.th).None?
    else Cleaning(th) == Cleaning(m.th)
  }

  predicate CloseMoves(th: Thread, m: Move) {
    if m.ch.BeginClose? then Closing(th).None? && Closing(m.th) == Some(m.ch.c)
    else if m.ch.EndClose? then Closing(th) == Some(m.ch.c) && Closing(m.th).None?
    else Closing(th) == Closing(m.th)
  }

  predicate TargetMoves(th: Thread, m: Move) {
    if m.ch.LockTarget? then Holding(th).None? && Holding(m.th) == Some(m.ch.k)
    else if m.ch.UnlockTarget? then Holding(th) == Some(m.ch.k) && Holding(m.th).None?
    else Holding(th) == Holding(m.th)
  }

  predicate OwnerMoves(th: Thread, m: Move) {
    Parked(m.th) && BindMoves(th, m) && CleanMoves(th, m) && CloseMoves(th, m) && TargetMoves(th, m)
  }

  lemma CleanOwners(s: Sys, th: Thread)
    requires Parked(th) && th.clean.Some? && CleanMove(s, th).Some?
    ensures OwnerMoves(th, CleanMove(s, th).value)
  {}

  lemma CloseOwners(s: Sys, th: Thread, x: Choice)
    requires Parked(th) && th.clean.None? && th.close.Some? && CloseMove(s, th, x).Some?
    ensures OwnerMoves(th, CloseMove(s, th, x).value)
  {}

  lemma OpenOwners(s: Sys, th: Thread, o: Opening)
    requires th.main.Handler? && th.main.pc.Open? && OpenMove(s, th, o).Some?
    ensures var m := OpenMove(s, th, o).value;
      && m.th.clean == th.clean && m.th.close == th.close && m.th.main.Handler? && m.th.main.req == th.main.req
      && (m.th.main.pc.AddConn? || m.th.main.pc.ReleaseBind?)
      && (m.ch.Purge? || m.ch.Store? || m.ch.BindTcp?)
  {}

  lemma HandlerOwners(s: Sys, th: Thread, x: Choice)
    requires Parked(th) && th.clean.None? && th.close.None? && th.main.Handler? && HandlerMove(s, th, x).Some?
    ensures OwnerMoves(th, HandlerMove(s, th, x).value)
  {
    hide OpenMove;
    if th.main.pc.Open? && x.Opens? {
      OpenOwners(s, th, x.o);
    }
  }

  lemma MainOwners(s: Sys, th: Thread, x: Choice)
    requires Parked(th) && th.clean.None? && th.close.None? && !th.main.Handler? && MainMove(s, th, x).Some?
    ensures OwnerMoves(th, MainMove(s, th, x).value)
  {
    hide HandlerMove;
  }

  lemma MoveOwners(s: Sys, th: Thread, x: Choice)
    requires Parked(th) && Plan(s, th, x).Some?
    ensures OwnerMoves(th, Plan(s, th, x).value)
  {
    hide CleanMove, CloseMove, HandlerMove, OwnerMoves;
    if th.clean.Some? {
      CleanOwners(s, th);
    } else if th.close.Some? {
      CloseOwners(s, th, x);
    } else if th.main.Handler? {
      HandlerOwners(s, th, x);
    } else {
      hide MainMove;
      MainOwners(s, th, x);
    }
  }

  lemma MoveKeepsParked(s: Sys, th: Thread, x: Choice)
    requires Parked(th) && Plan(s, th, x).Some?
    ensures Parked(Plan(s, th, x).value.th)
  {
    hide Plan;
    MoveOwners(s, th, x);
  }

  lemma MoveBind(s: Sys, th: Thread, x: Choice)
    requires Parked(th) && Plan(s, th, x).Some?
    ensures BindMoves(th, Plan(s, th, x).value)
  {
    hide Plan;
    MoveOwners(s, th, x);
  }

  lemma MoveClean(s: Sys, th: Thread, x: Choice)
    requires Parked(th) && Plan(s, th, x).Some?
    ensures CleanMoves(th, Plan(s, th, x).value)
  {
    hide Plan;
    MoveOwners(s, th, x);
  }

  lemma MoveClose(s: Sys, th: Thread, x: Choice)
    requires Parked(th) && Plan(s, th, x).Some?
    ensures CloseMoves(th, Plan(s, th, x).value)
  {
    hide Plan;
    MoveOwners(s, th, x);
  }

  lemma MoveTarget(s: Sys, th: Thread, x: Choice)
    requires Parked(th) && Plan(s, th, x).Some?
    ensures TargetMoves(th, Plan(s, th, x).value)
  {
    hide Plan;
    MoveOwners(s, th, x);
  }

  lemma MoveStarts(s: Sys, th: Thread, x: Choice)
    requires Plan(s, th, x).Some? && Plan(s, th, x).value.ch.Start?
    ensures var main := Plan(s, th, x).value.ch.main; main.Watcher? || main.Acceptor?
  {}

  // ----- one step, component by component -----

  function Started(threads: map<Tid, Thread>, ch: Change): map<Tid, Thread> {
    if ch.Start? then threads[ch.w := Thread(ch.main, None, None)] else threads
  }

  /** The change a step makes to shared state besides adding a thread or a connection. */
  function ChangeOf(s: Sys, a: Action): Change
    requires Step(s, a).Some?
  {
    if a.Go? then Plan(s, s.threads[a.t], a.x).value.ch else Nothing
  }

  lemma ApplyLocks(s: Sys, t: Tid, ch: Change)
    requires Applicable(s, ch)
    ensures var s1 := Apply(s, t, ch);
            && s1.threads == Started(s.threads, ch)
            && s1.bind == (if ch.LockBind? then Some(t) else if ch.UnlockBind? || ch.GiveUp? then None else s.bind)
            && s1.targets == (if ch.LockTarget? then s.targets[ch.k := t]
                              else if ch.UnlockTarget? then s.targets - {ch.k} else s.targets)
  {
    hide FwdsAfter, ConnsAfter, ListenersAfter, RoutesAfter, HoldersAfter;
  }

  function FwdOnce(s: Sys, f: Fwd): Once {
    if f in s.fwds then s.fwds[f].once else Fresh
  }

  function ConnOnce(s: Sys, c: Conn): Once {
    if c in s.conns then s.conns[c].once else Fresh
  }

  /** The forwards after a change: one of them is exchanged, and only a new one is added. */
  lemma ApplyFwds(s: Sys, t: Tid, ch: Change)
    requires Applicable(s, ch)
    ensures var s1 := Apply(s, t, ch);
            && s1.fwds.Keys == s.fwds.Keys + (if ch.NewForward? then {ch.f} else {})
            && (ch.NewForward? ==> ch.f !in s.fwds && s1.fwds[ch.f] == FwdAfter(NO_FORWARD, t, ch))
            && forall f <- s.fwds :: s1.fwds[f] == Changed(s.fwds[f], t, ch, f)
  {
    hide ConnsAfter, TargetsAfter, BindAfter, ListenersAfter, RoutesAfter, HoldersAfter, FwdAfter;
    TouchedIsKnown(s, ch);
    hide Applicable;
  }

  lemma TouchedIsKnown(s: Sys, ch: Change)
    requires Applicable(s, ch)
    ensures Touched(ch).Some? && !ch.NewForward? ==> Touched(ch).value in s.fwds
    ensures ch.NewForward? ==> ch.f !in s.fwds && Touched(ch) == Some(ch.f)
  {}

  function Changed(fw: Forward, t: Tid, ch: Change, f: Fwd): Forward {
    if Touched(ch) == Some(f) then FwdAfter(fw, t, ch) else fw
  }

  lemma OnceAfter(fw: Forward, t: Tid, ch: Change, f: Fwd)
    requires !ch.NewForward?
    ensures var r := Changed(fw, t, ch, f);
            && r.once == (if ch == BeginClean(f) then Running(t) else if ch == EndClean(f) then Done else fw.once)
            && r.starts == fw.starts + (if ch == BeginClean(f) then 1 else 0)
  {}

  lemma SetupAfter(fw: Forward, t: Tid, ch: Change, f: Fwd)
    requires !ch.NewForward?
    ensures Changed(fw, t, ch, f).setup == (fw.setup && ch != AddCleanup(f) && ch != GiveUp(f))
  {}

  lemma KeeperAfter(fw: Forward, t: Tid, ch: Change, f: Fwd)
    requires !ch.NewForward?
    ensures Changed(fw, t, ch, f).keeper == (if ch.Start? && ch.main == Watcher(f) then ch.w else fw.keeper)
  {}

  lemma BindingAfter(fw: Forward, t: Tid, ch: Change, f: Fwd)
    requires !ch.NewForward?
    ensures Changed(fw, t, ch, f).binding
            == (if ch.StoreServer? && ch.f == f then Routed(ch.h) else if ch == BindTcp(f) then TcpHolder else fw.binding)
  {}

  lemma DoneAfter(fw: Forward, t: Tid, ch: Change, f: Fwd)
    requires !ch.NewForward?
    ensures var r := Changed(fw, t, ch, f); r.conn == fw.conn && r.done == (fw.done || ch == SignalDone(f))
  {}

  lemma CountedAfter(fw: Forward, t: Tid, ch: Change, f: Fwd)
    requires !ch.NewForward?
    ensures Changed(fw, t, ch, f).counted == (fw.counted || ch == CountCreated(f))
    ensures Changed(fw, t, ch, f).ended == (fw.ended || ch == CountCleaned(f))
  {}

  /** Field by field, what a change does to the forward f that was fw. */
  lemma FieldsAfter(fw: Forward, t: Tid, ch: Change, f: Fwd)
    requires !ch.NewForward?
    ensures var r := Changed(fw, t, ch, f);
            && r.conn == fw.conn
            && r.once == (if ch == BeginClean(f) then Running(t) else if ch == EndClean(f) then Done else fw.once)
            && r.starts == fw.starts + (if ch == BeginClean(f) then 1 else 0)
            && r.done == (fw.done || ch == SignalDone(f))
            && r.binding == (if ch.StoreServer? && ch.f == f then Routed(ch.h) else if ch == BindTcp(f) then TcpHolder else fw.binding)
            && r.setup == (fw.setup && ch != AddCleanup(f) && ch != GiveUp(f))
            && r.keeper == (if ch.Start? && ch.main == Watcher(f) then ch.w else fw.keeper)
            && r.counted == (fw.counted || ch == CountCreated(f))
            && r.ended == (fw.ended || ch == CountCleaned(f))
  {
    hide Changed;
    OnceAfter(fw, t, ch, f);
    SetupAfter(fw, t, ch, f);
    KeeperAfter(fw, t, ch, f);
    BindingAfter(fw, t, ch, f);
    DoneAfter(fw, t, ch, f);
    CountedAfter(fw, t, ch, f);
  }

  lemma NewIsFresh(t: Tid, ch: Change)
    requires ch.NewForward?
    ensures Touched(ch) == Some(ch.f) && FwdAfter(NO_FORWARD, t, ch) == Forward(ch.conn, ch.target, Fresh, 0, false, false, Unset, true, t, false, false)
  {}

  lemma ApplyFwdOnce(s: Sys, t: Tid, ch: Change, f: Fwd)
    requires Applicable(s, ch)
    ensures var s1 := Apply(s, t, ch);
            && (f in s.fwds ==> f in s1.fwds && s1.fwds[f].conn == s.fwds[f].conn)
            && (f in s1.fwds && f !in s.fwds ==> ch.NewForward? && ch.f == f)
            && FwdOnce(s1, f)
               == if ch == BeginClean(f) then Running(t) else if ch == EndClean(f) then Done else FwdOnce(s, f)
  {
    ApplyFwds(s, t, ch);
    if ch.NewForward? {
      NewIsFresh(t, ch);
    } else if f in s.fwds {
      FieldsAfter(s.fwds[f], t, ch, f);
    }
    hide Apply, Applicable, Touched, FwdAfter, Changed;
  }

  lemma ApplyConns(s: Sys, t: Tid, ch: Change)
    requires Applicable(s, ch)
    ensures var s1 := Apply(s, t, ch);
            && s1.conns.Keys == s.conns.Keys
            && forall c <- s.conns :: s1.conns[c] == if TouchedConn(s, ch) == Some(c) then ConnAfter(s.conns[c], t, ch) else s.conns[c]
  {
    hide FwdsAfter, TargetsAfter, BindAfter, ListenersAfter, RoutesAfter, HoldersAfter, ConnAfter;
    if TouchedConn(s, ch).Some? {
      TouchedConnIsKnown(s, ch);
    }
    hide Applicable, TouchedConn;
  }

  lemma TouchedConnIsKnown(s: Sys, ch: Change)
    requires Applicable(s, ch) && TouchedConn(s, ch).Some?
    ensures TouchedConn(s, ch).value in s.conns
  {}

  lemma ApplyConnOnce(s: Sys, t: Tid, ch: Change, c: Conn)
    requires Applicable(s, ch)
    ensures var s1 := Apply(s, t, ch);
            && s1.conns.Keys == s.conns.Keys
            && ConnOnce(s1, c)
               == if ch == BeginClose(c) then Running(t) else if ch == EndClose(c) then Done else ConnOnce(s, c)
  {
    ApplyConns(s, t, ch);
    hide Apply;
  }

  /** A thread's step is its planned move applied to shared state. */
  lemma GoStep(s: Sys, a: Action) returns (m: Move, s0: Sys)
    requires a.Go? && Step(s, a).Some?
    ensures a.t in s.threads && Plan(s, s.threads[a.t], a.x) == Some(m)
    ensures m.ch == ChangeOf(s, a) && Applicable(s, m.ch) && s0 == Apply(s, a.t, m.ch)
    ensures Step(s, a).value == s0.(threads := s0.threads[a.t := m.th])
  {
    hide Plan, Apply, Applicable;
    m := Plan(s, s.threads[a.t], a.x).value;
    s0 := Apply(s, a.t, m.ch);
  }

  /** Every other step adds a thread or a connection and nothing else. */
  lemma OtherStep(s: Sys, a: Action)
    requires !a.Go? && Step(s, a).Some?
    ensures ChangeOf(s, a) == Nothing
    ensures match a
            case Connect(c) =>
              c !in s.conns && Step(s, a).value == s.(conns := s.conns[c := ConnState(Fresh, false, {})])
            case Arrive(t, main) =>
              && t !in s.threads && MayArrive(s, main)
              && Step(s, a).value == s.(threads := s.threads[t := Thread(main, None, None)])
  {}

  lemma StepThreads(s: Sys, a: Action)
    requires Step(s, a).Some?
    ensures var s1 := Step(s, a).value;
            match a
            case Connect(_) => s1.threads == s.threads
            case Arrive(t, main) => t !in s.threads && MayArrive(s, main) && s1.threads == s.threads[t := Thread(main, None, None)]
            case Go(t, x) =>
              && t in s.threads && Plan(s, s.threads[t], x).Some?
              && var m := Plan(s, s.threads[t], x).value;
                 && m.ch == ChangeOf(s, a) && Applicable(s, m.ch)
                 && s1.threads == Started(s.threads, m.ch)[t := m.th]
                 && (m.ch.Start? ==> m.ch.w !in s.threads && (m.ch.main.Watcher? || m.ch.main.Acceptor?))
  {
    hide Plan, Step, Apply, ChangeOf;
    if a.Go? {
      var m, _ := GoStep(s, a);
      ApplyLocks(s, a.t, m.ch);
      if m.ch.Start? {
        MoveStarts(s, s.threads[a.t], a.x);
      }
    } else {
      OtherStep(s, a);
    }
  }

  lemma StepLocks(s: Sys, a: Action)
    requires Step(s, a).Some?
    ensures var s1, ch := Step(s, a).value, ChangeOf(s, a);
            && s1.bind == (if ch.LockBind? then Some(a.t) else if ch.UnlockBind? || ch.GiveUp? then None else s.bind)
            && s1.targets == (if ch.LockTarget? then s.targets[ch.k := a.t]
                              else if ch.UnlockTarget? then s.targets - {ch.k} else s.targets)
            && (ch.LockBind? ==> a.Go? && s.bind.None?)
            && (ch.LockTarget? ==> a.Go? && ch.k !in s.targets)
  {
    hide Plan, Step, Apply, ChangeOf;
    if a.Go? {
      var m, _ := GoStep(s, a);
      ApplyLocks(s, a.t, m.ch);
    } else {
      OtherStep(s, a);
    }
  }

  lemma StepFwdOnce(s: Sys, a: Action, f: Fwd)
    requires Step(s, a).Some?
    ensures var s1, ch := Step(s, a).value, ChangeOf(s, a);
            && (f in s.fwds ==> f in s1.fwds && s1.fwds[f].conn == s.fwds[f].conn)
            && FwdOnce(s1, f)
               == (if ch == BeginClean(f) then Running(a.t) else if ch == EndClean(f) then Done else FwdOnce(s, f))
            && (ch == BeginClean(f) ==> a.Go? && f in s.fwds && FwdOnce(s, f).Fresh?)
            && (ch == EndClean(f) ==> f in s.fwds)
            && (f in s1.fwds && f !in s.fwds ==> ch.NewForward? && ch.f == f)
  {
    hide Plan, Step, Apply, ChangeOf;
    if a.Go? {
      var m, _ := GoStep(s, a);
      ApplyFwdOnce(s, a.t, m.ch, f);
    } else {
      OtherStep(s, a);
    }
  }

  lemma StepConnOnce(s: Sys, a: Action, c: Conn)
    requires Step(s, a).Some?
    ensures var s1, ch := Step(s, a).value, ChangeOf(s, a);
            && (c in s.conns ==> c in s1.conns)
            && ConnOnce(s1, c)
               == (if ch == BeginClose(c) then Running(a.t) else if ch == EndClose(c) then Done else ConnOnce(s, c))
            && (ch == BeginClose(c) ==> a.Go? && c in s.conns && ConnOnce(s, c).Fresh?)
            && (ch == EndClose(c) ==> c in s.conns)
  {
    hide Plan, Step, Apply, ChangeOf;
    if a.Go? {
      var m, _ := GoStep(s, a);
      ApplyConnOnce(s, a.t, m.ch, c);
    } else {
      OtherStep(s, a);
    }
  }

  // ----- every step keeps it -----

  lemma StepParked(s: Sys, a: Action)
    requires AllParked(s) && Step(s, a).Some?
    ensures AllParked(Step(s, a).value)
  {
    hide Plan, Step;
    StepThreads(s, a);
    if a.Go? {
      MoveKeepsParked(s, s.threads[a.t], a.x);
    }
  }

  lemma StepBind(s: Sys, a: Action)
    requires AllParked(s) && BindOwned(s) && Step(s, a).Some?
    ensures BindOwned(Step(s, a).value)
  {
    hide Plan, Step, ChangeOf;
    StepThreads(s, a);
    StepLocks(s, a);
    if a.Go? {
      MoveBind(s, s.threads[a.t], a.x);
    } else {
      OtherStep(s, a);
    }
  }

  /** Each target's lock is where its holder is, given who moved and how. */
  lemma TargetsHeld(
    threads: map<Tid, Thread>, threads1: map<Tid, Thread>, targets: map<Target, Tid>, targets1: map<Target, Tid>, t: Tid)
    requires forall k <- targets :: targets[k] in threads && Holding(threads[targets[k]]) == Some(k)
    requires forall u <- threads :: Holding(threads[u]).Some? ==>
      Holding(threads[u]).value in targets && targets[Holding(threads[u]).value] == u
    requires t in threads && t in threads1 && threads.Keys <= threads1.Keys
    requires forall u <- threads1 :: u != t ==> if u in threads then threads1[u] == threads[u] else Holding(threads1[u]).None?
    requires match (Holding(threads[t]), Holding(threads1[t]))
      case (None, Some(k)) => k !in targets && targets1 == targets[k := t]
      case (Some(k), None) => targets1 == targets - {k}
      case (h, h1) => h == h1 && targets1 == targets
    ensures forall k <- targets1 :: targets1[k] in threads1 && Holding(threads1[targets1[k]]) == Some(k)
    ensures forall u <- threads1 :: Holding(threads1[u]).Some? ==>
      Holding(threads1[u]).value in targets1 && targets1[Holding(threads1[u]).value] == u
  {
    hide Holding;
  }

  lemma NewcomersHoldNone(main: Main)
    ensures (main.Handler? ==> main.pc.Begin?) ==> Holding(Thread(main, None, None)).None?
  {}

  lemma StepTarget(s: Sys, a: Action)
    requires AllParked(s) && TargetOwned(s) && Step(s, a).Some?
    ensures TargetOwned(Step(s, a).value)
  {
    hide Plan, Step, ChangeOf, Holding;
    var s1 := Step(s, a).value;
    StepThreads(s, a);
    StepLocks(s, a);
    if a.Go? {
      MoveTarget(s, s.threads[a.t], a.x);
      if ChangeOf(s, a).Start? {
        NewcomersHoldNone(ChangeOf(s, a).main);
      }
      TargetsHeld(s.threads, s1.threads, s.targets, s1.targets, a.t);
    } else {
      OtherStep(s, a);
      if a.Arrive? {
        NewcomersHoldNone(a.main);
      }
    }
  }

  lemma StepClean(s: Sys, a: Action)
    requires AllParked(s) && CleanOwned(s) && Step(s, a).Some?
    ensures CleanOwned(Step(s, a).value)
  {
    hide Plan, Step, ChangeOf;
    var s1 := Step(s, a).value;
    StepThreads(s, a);
    if a.Go? {
      MoveClean(s, s.threads[a.t], a.x);
    } else {
      OtherStep(s, a);
    }
    forall f <- s1.fwds | s1.fwds[f].once.Running?
      ensures s1.fwds[f].once.tid in s1.threads && Cleaning(s1.threads[s1.fwds[f].once.tid]) == Some(f)
    {
      StepFwdOnce(s, a, f);
    }
    forall t <- s1.threads | Cleaning(s1.threads[t]).Some?
      ensures Cleaning(s1.threads[t]).value in s1.fwds && s1.fwds[Cleaning(s1.threads[t]).value].once == Running(t)
    {
      StepFwdOnce(s, a, Cleaning(s1.threads[t]).value);
    }
  }

  lemma StepClose(s: Sys, a: Action)
    requires AllParked(s) && CloseOwned(s) && Step(s, a).Some?
    ensures CloseOwned(Step(s, a).value)
  {
    hide Plan, Step, ChangeOf;
    var s1 := Step(s, a).value;
    StepThreads(s, a);
    if a.Go? {
      MoveClose(s, s.threads[a.t], a.x);
    } else {
      OtherStep(s, a);
    }
    forall c <- s1.conns | s1.conns[c].once.Running?
      ensures s1.conns[c].once.tid in s1.threads && Closing(s1.threads[s1.conns[c].once.tid]) == Some(c)
    {
      StepConnOnce(s, a, c);
    }
    forall t <- s1.threads | Closing(s1.threads[t]).Some?
      ensures Closing(s1.threads[t]).value in s1.conns && s1.conns[Closing(s1.threads[t]).value].once == Running(t)
    {
      StepConnOnce(s, a, Closing(s1.threads[t]).value);
    }
  }

  /** Every reachable state: locks and guards belong to the threads inside them. */
  lemma StepOwned(s: Sys, a: Action)
    requires Owned(s) && Step(s, a).Some?
    ensures Owned(Step(s, a).value)
  {
    StepParked(s, a);
    StepBind(s, a);
    StepClean(s, a);
    StepClose(s, a);
    StepTarget(s, a);
  }
}

// What a cleanup leaves behind, and what sets one off: a forward that has been
// cleaned is in none of the tables, and once its listener is closed or it has been
// cancelled it is cleaned in the end.

module ForwardGone {
  import opened Options
  import opened ForwardModel
  import opened ForwardOwners
  import opened ForwardSetup
  import opened ForwardRoutes
  import opened ForwardTheorems
  import opened ForwardRouting
  import opened ForwardProgress
  import opened ForwardEnding

  // ----- how far a cleanup has come -----

  function Stage(pc: CleanPc): nat {
    match pc
    case KWant => 0
    case KStart => 1
    case KClose => 2
    case KListener => 3
    case KUnlink => 4
    case _ => 5
  }

  /** What n writes of a cleanup have taken down. */
  predicate Down(s: Sys, f: Fwd, n: nat)
    requires f in s.fwds
  {
    && (n >= 2 ==> s.fwds[f].done)
    && (n >= 3 ==> s.fwds[f].closed)
    && (n >= 4 ==> f !in s.listeners)
    && (n >= 5 ==> forall c <- s.conns :: f !in s.conns[c].cleanups)
  }

  /** How many writes the cleanup of f has made. */
  function Writes(s: Sys, f: Fwd): nat
    requires f in s.fwds
  {
    match s.fwds[f].once
    case Fresh => 0
    case Done => 5
    case Running(t) =>
      if t in s.threads && s.threads[t].clean.Some? && s.threads[t].clean.value.f == f then Stage(s.threads[t].clean.value.pc) else 0
  }

  ghost predicate TakenDown(s: Sys) {
    forall f <- s.fwds :: Down(s, f, Writes(s, f))
  }

  /** Listeners are of forwards, and a callback is with the connection of its forward. */
  ghost predicate Tables(s: Sys) {
    && (forall f <- s.listeners :: f in s.fwds)
    && (forall c <- s.conns, f <- s.conns[c].cleanups :: f in s.fwds && s.fwds[f].conn == c)
  }

  lemma ClosedAfter(fw: Forward, t: Tid, ch: Change, f: Fwd)
    requires !ch.NewForward?
    ensures Changed(fw, t, ch, f).closed == (fw.closed || ch == CloseListener(f))
    ensures Changed(fw, t, ch, f).target == fw.target
  {}

  lemma StepShut(s: Sys, a: Action, f: Fwd)
    requires Step(s, a).Some? && f in s.fwds
    ensures var s1, ch := Step(s, a).value, ChangeOf(s, a);
      && f in s1.fwds && s1.fwds[f].target == s.fwds[f].target
      && s1.fwds[f].closed == (s.fwds[f].closed || ch == CloseListener(f))
  {
    hide Plan, Step, Apply, ChangeOf, Applicable;
    if a.Go? {
      var m, _ := GoStep(s, a);
      ApplyFwds(s, a.t, m.ch);
      if m.ch.NewForward? {
        NewIsFresh(a.t, m.ch);
      } else {
        ClosedAfter(s.fwds[f], a.t, m.ch, f);
      }
      hide Changed, FwdAfter, Touched;
    } else {
      OtherStep(s, a);
    }
  }

  lemma ApplyCleanupsExactly(s: Sys, t: Tid, ch: Change, c: Conn)
    requires Applicable(s, ch) && c in s.conns
    ensures var s1 := Apply(s, t, ch);
      && s1.conns.Keys == s.conns.Keys
      && s1.conns[c].cleanups
        == if ch.AddCleanup? && s.fwds[ch.f].conn == c then s.conns[c].cleanups + {ch.f}
           else if ch.DropCleanup? && s.fwds[ch.f].conn == c then s.conns[c].cleanups - {ch.f}
           else s.conns[c].cleanups
  {
    ApplyConns(s, t, ch);
    hide Apply;
  }

  lemma StepCleanups(s: Sys, a: Action, c: Conn)
    requires Step(s, a).Some? && c in Step(s, a).value.conns
    ensures var s1, ch := Step(s, a).value, ChangeOf(s, a);
      && (ch.AddCleanup? || ch.DropCleanup? ==> ch.f in s.fwds && s.fwds[ch.f].conn in s.conns)
      && s1.conns[c].cleanups
        == if c !in s.conns then {}
           else if ch.AddCleanup? && s.fwds[ch.f].conn == c then s.conns[c].cleanups + {ch.f}
           else if ch.DropCleanup? && s.fwds[ch.f].conn == c then s.conns[c].cleanups - {ch.f}
           else s.conns[c].cleanups
  {
    hide Plan, Step, Apply, ChangeOf;
    if a.Go? {
      var m, _ := GoStep(s, a);
      ApplyConnOnce(s, a.t, m.ch, c);
      if c in s.conns {
        ApplyCleanupsExactly(s, a.t, m.ch, c);
      }
    } else {
      OtherStep(s, a);
    }
  }

  // ----- every step keeps it -----

  /** A cleanup makes one write after the other. */
  lemma MoveStage(s: Sys, th: Thread, x: Choice)
    requires Parked(th) && Plan(s, th, x).Some? && th.clean.Some?
    ensures var m, f := Plan(s, th, x).value, th.clean.value.f; var before, after := th.clean.value.pc, m.th.clean;
      && f in s.fwds
      && (after.None? ==> before.KWant? || (before.KEnd? && m.ch == EndClean(f)))
      && (after.Some? ==>
            && after.value.f == f
            && (Stage(after.value.pc) == Stage(before) == 5
                || (Stage(after.value.pc) == Stage(before) + 1 && Makes(m.ch, f, Stage(after.value.pc)))))
  {}

  /** The change that makes the n-th write. */
  predicate Makes(ch: Change, f: Fwd, n: nat) {
    match n
    case 0 => false
    case 1 => ch == BeginClean(f)
    case 2 => ch == SignalDone(f)
    case 3 => ch == CloseListener(f)
    case 4 => ch == DropListener(f)
    case _ => ch == DropCleanup(f)
  }

  lemma StepWrites(s: Sys, a: Action, f: Fwd)
    requires Owned(s) && Step(s, a).Some? && f in s.fwds
    ensures var s1, ch := Step(s, a).value, ChangeOf(s, a);
      && f in s1.fwds
      && (Writes(s1, f) == Writes(s, f)
          || Writes(s1, f) == 0
          || (Writes(s1, f) == Writes(s, f) + 1 && Makes(ch, f, Writes(s1, f))))
  {
    hide Plan, Step, Apply, ChangeOf, Applicable, BindOwned, CloseOwned, TargetOwned;
    OwnedParts(s);
    StepThreads(s, a);
    StepFwdOnce(s, a, f);
    if a.Go? {
      MoveClean(s, s.threads[a.t], a.x);
      MoveTouches(s, s.threads[a.t], a.x);
      if ChangeOf(s, a) == BeginClean(f) {
        BeginsAtStart(s, s.threads[a.t], a.x);
      } else if s.threads[a.t].clean.Some? {
        MoveStage(s, s.threads[a.t], a.x);
      }
    } else {
      OtherStep(s, a);
    }
  }

  /** What is taken down stays down: only a forward still being set up is added to a table. */
  lemma StepKeepsDown(s: Sys, a: Action, f: Fwd, n: nat)
    requires AllParked(s) && SetupOwned(s) && Step(s, a).Some? && f in s.fwds && !s.fwds[f].once.Fresh? && Down(s, f, n)
    ensures f in Step(s, a).value.fwds && Down(Step(s, a).value, f, n)
  {
    hide Plan, Step, Apply, ChangeOf, Applicable, Early;
    var s1 := Step(s, a).value;
    StepFwd(s, a, f);
    StepShut(s, a, f);
    StepListeners(s, a);
    NeverAdded(s, a, f);
    if n >= 5 {
      forall c <- s1.conns
        ensures f !in s1.conns[c].cleanups
      {
        StepCleanups(s, a, c);
      }
    }
  }

  lemma NeverAdded(s: Sys, a: Action, f: Fwd)
    requires AllParked(s) && SetupOwned(s) && Step(s, a).Some? && f in s.fwds && !s.fwds[f].once.Fresh?
    ensures ChangeOf(s, a) != AddCleanup(f)
    ensures ChangeOf(s, a).NewForward? ==> ChangeOf(s, a).f != f
  {
    hide Plan, Step, Apply, ChangeOf;
    if a.Go? {
      var m, _ := GoStep(s, a);
      MoveEarly(s, s.threads[a.t], a.x);
    } else {
      OtherStep(s, a);
    }
  }

  /** The write itself. */
  lemma StepMakes(s: Sys, a: Action, f: Fwd, n: nat)
    requires Step(s, a).Some? && f in s.fwds && 2 <= n <= 5 && Makes(ChangeOf(s, a), f, n) && Tables(s)
    requires f in Step(s, a).value.fwds && Down(Step(s, a).value, f, n - 1)
    ensures Down(Step(s, a).value, f, n)
  {
    hide Plan, Step, Apply, ChangeOf, Applicable;
    var s1 := Step(s, a).value;
    StepFwd(s, a, f);
    StepShut(s, a, f);
    StepListeners(s, a);
    if n == 5 {
      forall c <- s1.conns
        ensures f !in s1.conns[c].cleanups
      {
        StepCleanups(s, a, c);
      }
    }
  }

  lemma StepDown(s: Sys, a: Action, f: Fwd)
    requires Owned(s) && SetupOwned(s) && Tables(s) && Step(s, a).Some? && f in Step(s, a).value.fwds
    requires f in s.fwds ==> Down(s, f, Writes(s, f))
    ensures Down(Step(s, a).value, f, Writes(Step(s, a).value, f))
  {
    hide Plan, Step, Apply, ChangeOf, Applicable, Down, Writes, Makes, BindOwned, CloseOwned, TargetOwned, CleanOwned, SetupOwned, Tables;
    OwnedParts(s);
    var s1 := Step(s, a).value;
    NothingDown(s1, f);
    if f in s.fwds {
      StepWrites(s, a, f);
      if Writes(s1, f) > 1 {
        WritesFresh(s, f);
        StepKeepsDown(s, a, f, Writes(s, f));
        if Writes(s1, f) != Writes(s, f) {
          WritesBound(s1, f);
          StepMakes(s, a, f, Writes(s1, f));
        }
      }
    } else {
      StepNew(s, a, f);
      WritesFresh(s1, f);
    }
  }

  lemma NothingDown(s: Sys, f: Fwd)
    requires f in s.fwds
    ensures Down(s, f, 0) && Down(s, f, 1)
  {}

  lemma WritesFresh(s: Sys, f: Fwd)
    requires f in s.fwds
    ensures s.fwds[f].once.Fresh? ==> Writes(s, f) == 0
  {}

  lemma WritesBound(s: Sys, f: Fwd)
    requires f in s.fwds
    ensures Writes(s, f) <= 5
  {}

  lemma StepTables(s: Sys, a: Action)
    requires Tables(s) && Step(s, a).Some?
    ensures Tables(Step(s, a).value)
  {
    hide Plan, Step, Apply, ChangeOf, Applicable;
    var s1 := Step(s, a).value;
    StepListeners(s, a);
    forall f <- s1.listeners
      ensures f in s1.fwds
    {
      if f in s.fwds {
        StepFwd(s, a, f);
      } else {
        StepNew(s, a, f);
      }
    }
    forall c <- s1.conns, f <- s1.conns[c].cleanups
      ensures f in s1.fwds && s1.fwds[f].conn == c
    {
      StepCleanups(s, a, c);
      StepFwd(s, a, f);
    }
  }

  ghost predicate GoneInv(s: Sys) {
    RoutingInv(s) && Tables(s) && TakenDown(s)
  }

  lemma {:induction false} RunGoneInv(run: seq<Action>)
    requires Exec(INIT, run).Some?
    ensures GoneInv(Exec(INIT, run).value)
    decreases |run|
  {
    hide Step, Plan, Inv, RoutingInv;
    RunRoutingInv(run);
    if run != [] {
      var s, a := Exec(INIT, run[..|run| - 1]).value, run[|run| - 1];
      RunGoneInv(run[..|run| - 1]);
      StepTables(s, a);
      hide Tables;
      RoutingParts(s);
      forall f <- Step(s, a).value.fwds
        ensures Down(Step(s, a).value, f, Writes(Step(s, a).value, f))
      {
        StepDown(s, a, f);
      }
    }
  }

  lemma RoutingParts(s: Sys)
    requires RoutingInv(s)
    ensures Owned(s) && SetupOwned(s) && Inv(s) && MembersBound(s)
  {}

  lemma ReachableGone(s: Sys)
    requires Reachable(s)
    ensures GoneInv(s)
  {
    hide Exec;
    var run :| Exec(INIT, run) == Some(s);
    RunGoneInv(run);
  }

  /**
   * Once a forward's cleanup is over nothing has it any more: its listener is closed
   * and unlisted, its connection has no callback for it, and no holder has it among
   * its connections or its backends.
   */
  lemma CleanedIsGone(s: Sys, f: Fwd)
    requires Reachable(s) && f in s.fwds && s.fwds[f].once.Done?
    ensures s.fwds[f].done && s.fwds[f].closed && f !in s.listeners
    ensures forall c <- s.conns :: f !in s.conns[c].cleanups
    ensures forall h <- s.holders :: f !in s.holders[h].conns && f !in s.holders[h].servers
  {
    hide Inv, RoutingInv, Tables, MembersBound, StillIn, SpotNow;
    ReachableGone(s);
    RoutingParts(s);
    assert Down(s, f, 5);
    InvHolders(s);
    forall h <- s.holders
      ensures f !in s.holders[h].conns && f !in s.holders[h].servers
    {
      NotMember(s, h, f);
      if SpotNow(s) == Adding(f, h) {
        AddingIsSetup(s, f, h);
      }
      NoServer(s.holders[h], h, SpotNow(s), f);
    }
  }

  lemma NoServer(ho: Holder, h: HolderId, spot: Spot, f: Fwd)
    requires InStep(ho, h, spot) && f !in ho.conns && spot != Adding(f, h)
    ensures f !in ho.servers
  {
    if spot.Adding? && spot.h == h {
      assert f in ho.servers <==> f in ho.servers - {spot.f};
    }
  }

  lemma InvHolders(s: Sys)
    requires Inv(s)
    ensures HoldersInStep(s) && SetupOwned(s)
  {}

  lemma NotMember(s: Sys, h: HolderId, f: Fwd)
    requires MembersBound(s) && h in s.holders && f in s.fwds && s.fwds[f].once.Done?
    ensures f !in s.holders[h].conns
  {
    if f in s.holders[h].conns {
      InFwds(s, f);
    }
  }

  // ----- a closed listener, and a cancelled forward -----

  /** The thread will see to f's cleanup once the listener of f is closed. */
  predicate Tends(th: Thread, f: Fwd) {
    || Early(th) == Some(f)
    || (th.main.Handler? && (th.main.pc == Watch(f) || th.main.pc == Reply(f)))
    || th.main == Acceptor(f)
    || (th.clean.Some? && th.clean.value.f == f)
  }

  ghost predicate Tended(s: Sys) {
    forall f <- s.fwds :: s.fwds[f].once.Fresh? ==> exists t <- s.threads :: Tends(s.threads[t], f)
  }

  /** It hands over to the acceptor it starts, or begins the cleanup, or finds it begun. */
  lemma MoveTends(s: Sys, th: Thread, x: Choice, f: Fwd)
    requires Parked(th) && Plan(s, th, x).Some? && Tends(th, f)
    ensures var m := Plan(s, th, x).value;
      || Tends(m.th, f)
      || m.ch == BeginClean(f) || (m.ch.Start? && m.ch.main == Acceptor(f))
      || (f in s.fwds && !s.fwds[f].once.Fresh?) || Cleaning(th) == Some(f)
  {
    hide OpenMove;
    if th.clean.None? && th.close.None? && th.main.Handler? && th.main.pc.Open? && x.Opens? {
      OpenKeepsReq(s, th, x.o);
    }
  }

  lemma AcceptorTends(f: Fwd)
    ensures Tends(Thread(Acceptor(f), None, None), f)
  {}

  lemma NewTends(s: Sys, a: Action, f: Fwd)
    requires AllParked(s) && Step(s, a).Some? && ChangeOf(s, a).NewForward? && ChangeOf(s, a).f == f
    ensures a.Go? && a.t in Step(s, a).value.threads && Tends(Step(s, a).value.threads[a.t], f)
  {
    hide Plan, Step, Apply, ChangeOf, Early;
    StepThreads(s, a);
    if a.Go? {
      MoveEarly(s, s.threads[a.t], a.x);
    } else {
      OtherStep(s, a);
    }
  }

  lemma StepTended(s: Sys, a: Action)
    requires AllParked(s) && CleanOwned(s) && Tended(s) && Step(s, a).Some?
    ensures Tended(Step(s, a).value)
  {
    hide Plan, Step, Apply, ChangeOf, Applicable, Tends, Early;
    var s1 := Step(s, a).value;
    StepThreads(s, a);
    forall f <- s1.fwds | s1.fwds[f].once.Fresh?
      ensures exists t <- s1.threads :: Tends(s1.threads[t], f)
    {
      StepFwdOnce(s, a, f);
      if f in s.fwds {
        var t :| t in s.threads && Tends(s.threads[t], f);
        StepTender(s, a, t, f);
      } else {
        NewTends(s, a, f);
      }
    }
  }

  lemma StepTender(s: Sys, a: Action, t: Tid, f: Fwd)
    requires AllParked(s) && CleanOwned(s) && Step(s, a).Some? && t in s.threads && Tends(s.threads[t], f)
    requires f in s.fwds && s.fwds[f].once.Fresh? && ChangeOf(s, a) != BeginClean(f)
    ensures var s1 := Step(s, a).value; exists u <- s1.threads :: Tends(s1.threads[u], f)
  {
    hide Plan, Step, Apply, ChangeOf, Applicable, Tends, Early;
    var s1, ch := Step(s, a).value, ChangeOf(s, a);
    StepThreads(s, a);
    if a.Go? && a.t == t {
      MoveTends(s, s.threads[t], a.x, f);
      if ch.Start? && ch.main == Acceptor(f) {
        AcceptorTends(f);
        assert ch.w != t && Tends(s1.threads[ch.w], f);
      } else {
        assert Tends(s1.threads[t], f);
      }
    } else {
      assert t in s1.threads && s1.threads[t] == s.threads[t];
    }
  }

  lemma {:induction false} RunTended(run: seq<Action>)
    requires Exec(INIT, run).Some?
    ensures Tended(Exec(INIT, run).value)
    decreases |run|
  {
    hide Step, Plan, Inv, AllParked, CleanOwned, Tended;
    if run == [] {
      InitTended();
    } else {
      RunTended(run[..|run| - 1]);
      RunInv(run[..|run| - 1]);
      InvOwners(Exec(INIT, run[..|run| - 1]).value);
      StepTended(Exec(INIT, run[..|run| - 1]).value, run[|run| - 1]);
    }
  }

  lemma InitTended()
    ensures Tended(INIT)
  {}

  lemma InvOwners(s: Sys)
    requires Inv(s)
    ensures AllParked(s) && CleanOwned(s) && Owned(s)
  {}

  lemma ReachableTended(s: Sys)
    requires Reachable(s)
    ensures Tended(s)
  {
    hide Exec, Tended;
    var run :| Exec(INIT, run) == Some(s);
    RunTended(run);
  }

  /** No thread that sees to a forward whose listener is closed is at rest. */
  lemma TenderGoes(s: Sys, th: Thread, f: Fwd)
    requires f in s.fwds && s.fwds[f].closed && (Tends(th, f) || Cleaning(th) == Some(f))
    ensures !AtRest(s, th)
  {}

  /** Once no thread can step, a forward whose listener is closed has been cleaned, whoever closed it. */
  lemma ClosedListenerIsCleaned(s: Sys, f: Fwd)
    requires Reachable(s) && Quiescent(s) && f in s.fwds && s.fwds[f].closed
    ensures s.fwds[f].once.Done?
  {
    hide Exec, Inv, AtRest, Quiescent, Reachable, Tends, Cleaning;
    ReachableInv(s);
    ReachableTended(s);
    InvOwners(s);
    if s.fwds[f].once.Fresh? {
      var t :| t in s.threads && Tends(s.threads[t], f);
      TenderGoes(s, s.threads[t], f);
      NoDeadlock(s, t);
    } else if s.fwds[f].once.Running? {
      TenderGoes(s, s.threads[s.fwds[f].once.tid], f);
      NoDeadlock(s, s.fwds[f].once.tid);
    }
  }

  /** Where a cancel request for f stands: not begun, at the cleanup, or through, with the listener closed or the cleanup over. */
  predicate Cancelling(s: Sys, t: Tid, f: Fwd) {
    && f in s.fwds && t in s.threads
    && (|| s.threads[t] == Thread(Canceller(f), None, None)
        || (s.threads[t].clean.Some? && s.threads[t].clean.value.f == f)
        || s.fwds[f].closed || s.fwds[f].once.Done?)
  }

  lemma MoveCancels(s: Sys, th: Thread, x: Choice, f: Fwd)
    requires Plan(s, th, x).Some?
    requires th == Thread(Canceller(f), None, None) || (th.clean.Some? && th.clean.value.f == f)
    ensures var m := Plan(s, th, x).value;
      || (m.th.clean.Some? && m.th.clean.value.f == f)
      || m.ch == CloseListener(f) || m.ch == EndClean(f) || (f in s.fwds && s.fwds[f].once.Done?)
  {}

  lemma StepCancelling(s: Sys, a: Action, t: Tid, f: Fwd)
    requires Step(s, a).Some? && Cancelling(s, t, f) && CleanOwned(s) && AllParked(s)
    ensures Cancelling(Step(s, a).value, t, f)
  {
    hide Plan, Step, Apply, ChangeOf, Applicable, Cleaning;
    StepThreads(s, a);
    StepFwdOnce(s, a, f);
    StepShut(s, a, f);
    if a.Go? {
      MoveTouches(s, s.threads[a.t], a.x);
      if ChangeOf(s, a) == BeginClean(f) {
        assert s.fwds[f].once.Fresh?;
      }
      if a.t == t && (s.threads[t] == Thread(Canceller(f), None, None) || (s.threads[t].clean.Some? && s.threads[t].clean.value.f == f)) {
        MoveCancels(s, s.threads[t], a.x, f);
      }
    }
  }

  lemma {:induction false} RunCancelling(s: Sys, run: seq<Action>, t: Tid, f: Fwd)
    requires Inv(s) && Exec(s, run).Some? && Cancelling(s, t, f)
    ensures Inv(Exec(s, run).value) && Cancelling(Exec(s, run).value, t, f)
    decreases |run|
  {
    hide Step, Inv, Cancelling;
    if run != [] {
      var n := |run| - 1;
      RunCancelling(s, run[..n], t, f);
      var mid := Exec(s, run[..n]).value;
      InvOwners(mid);
      StepInv(mid, run[n]);
      StepCancelling(mid, run[n], t, f);
    }
  }

  /**
   * A cancel request cleans its forward in the end, whatever the forward's own handler
   * and the connection do meanwhile: any run that cannot go on has done it.
   */
  lemma CancelledIsCleaned(s: Sys, run: seq<Action>, t: Tid, f: Fwd)
    requires Reachable(s) && Exec(s, run).Some? && Quiescent(Exec(s, run).value)
    requires f in s.fwds && t in s.threads && s.threads[t] == Thread(Canceller(f), None, None)
    ensures var s1 := Exec(s, run).value; f in s1.fwds && s1.fwds[f].once.Done?
  {
    hide Exec, Inv, AtRest, Quiescent, Reachable, Step;
    ReachableInv(s);
    RunCancelling(s, run, t, f);
    var s1 := Exec(s, run).value;
    ReachableOn(s, run);
    if s1.fwds[f].closed {
      ClosedListenerIsCleaned(s1, f);
    } else if !s1.fwds[f].once.Done? {
      BusyGoes(s1, s1.threads[t], f);
      NoDeadlock(s1, t);
    }
  }

  lemma BusyGoes(s: Sys, th: Thread, f: Fwd)
    requires th == Thread(Canceller(f), None, None) || th.clean.Some?
    ensures !AtRest(s, th)
  {}
}

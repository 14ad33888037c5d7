// What holds in every reachable state of the forward protocol.

module ForwardTheorems {
  import opened Options
  import opened Slots
  import opened ForwardModel
  import opened ForwardOwners
  import opened ForwardSetup
  import opened ForwardRoutes

  // ----- counting -----

  ghost function Created(s: Sys): set<Fwd> {
    set f | f in s.fwds && s.fwds[f].counted
  }

  ghost function Ended(s: Sys): set<Fwd> {
    set f | f in s.fwds && s.fwds[f].ended
  }

  /** Made, but its handler has not counted it yet. */
  predicate AtCount(th: Thread, f: Fwd) {
    th.main.Handler? && th.main.pc == Count(f)
  }

  /** Its cleanup is counted, and is about to be over. */
  predicate AtEnd(th: Thread, f: Fwd) {
    th.clean == Some(CleanCall(f, KEnd))
  }

  /** The two counters count flags, and the flags lag behind by one step of one thread at most. */
  ghost predicate Counted(s: Sys) {
    s.created == |Created(s)| && s.cleaned == |Ended(s)| && CountedAt(s) && EndedAt(s) && StartsMatch(s)
  }

  ghost predicate CountedAt(s: Sys) {
    forall f <- s.fwds :: !s.fwds[f].counted <==> exists t <- s.threads :: AtCount(s.threads[t], f)
  }

  ghost predicate EndedAt(s: Sys) {
    forall f <- s.fwds :: s.fwds[f].ended <==> s.fwds[f].once.Done? || exists t <- s.threads :: AtEnd(s.threads[t], f)
  }

  ghost predicate StartsMatch(s: Sys) {
    forall f <- s.fwds :: s.fwds[f].starts == if s.fwds[f].once.Fresh? then 0 else 1
  }

  lemma ApplyCounts(s: Sys, t: Tid, ch: Change)
    requires Applicable(s, ch)
    ensures var s1 := Apply(s, t, ch);
            && s1.fwds.Keys == s.fwds.Keys + (if ch.NewForward? then {ch.f} else {})
            && s1.created == s.created + (if ch.CountCreated? then 1 else 0)
            && s1.cleaned == s.cleaned + (if ch.CountCleaned? then 1 else 0)
            && (ch.NewForward? ==> ch.f !in s.fwds)
  {
    ApplyFwds(s, t, ch);
    hide FwdsAfter, ConnsAfter, TargetsAfter, BindAfter, ListenersAfter, RoutesAfter, HoldersAfter, Applicable;
  }

  lemma ApplyFlags(s: Sys, t: Tid, ch: Change, f: Fwd)
    requires Applicable(s, ch) && f in s.fwds
    ensures var s1 := Apply(s, t, ch);
            && f in s1.fwds
            && s1.fwds[f].starts == s.fwds[f].starts + (if ch == BeginClean(f) then 1 else 0)
            && s1.fwds[f].counted == (s.fwds[f].counted || ch == CountCreated(f))
            && s1.fwds[f].ended == (s.fwds[f].ended || ch == CountCleaned(f))
  {
    ApplyFwds(s, t, ch);
    if ch.NewForward? {
      NewIsFresh(t, ch);
    } else {
      FieldsAfter(s.fwds[f], t, ch, f);
    }
    hide Apply, Applicable, Touched, FwdAfter, Changed;
  }

  lemma StepFlags(s: Sys, a: Action, f: Fwd)
    requires Step(s, a).Some? && f in s.fwds
    ensures var s1, ch := Step(s, a).value, ChangeOf(s, a);
            && f in s1.fwds
            && s1.fwds[f].starts == s.fwds[f].starts + (if ch == BeginClean(f) then 1 else 0)
            && s1.fwds[f].counted == (s.fwds[f].counted || ch == CountCreated(f))
            && s1.fwds[f].ended == (s.fwds[f].ended || ch == CountCleaned(f))
  {
    hide Plan, Step, Apply, ChangeOf, Applicable;
    if a.Go? {
      var m, _ := GoStep(s, a);
      ApplyFlags(s, a.t, m.ch, f);
    } else {
      OtherStep(s, a);
    }
  }

  /** A thread comes to count a forward by making it, and leaves by counting it. */
  lemma MoveAtCount(s: Sys, th: Thread, x: Choice, f: Fwd)
    requires Plan(s, th, x).Some?
    ensures var m := Plan(s, th, x).value;
      && (AtCount(m.th, f) <==> (AtCount(th, f) && m.ch != CountCreated(f)) || (m.ch.NewForward? && m.ch.f == f))
      && (m.ch == CountCreated(f) ==> AtCount(th, f))
  {
    hide CleanMove, CloseMove, HandlerMove;
    if th.clean.Some? {
      CleanKeepsMain(s, th);
      CleanCountsNone(s, th);
    } else if th.close.Some? {
      CloseKeepsMain(s, th, x);
      CloseCountsNone(s, th, x);
    } else if th.main.Handler? {
      HandlerAtCount(s, th, x, f);
    }
  }

  lemma CleanCountsNone(s: Sys, th: Thread)
    requires th.clean.Some? && CleanMove(s, th).Some?
    ensures var ch := CleanMove(s, th).value.ch; !ch.CountCreated? && !ch.NewForward?
  {}

  lemma CloseCountsNone(s: Sys, th: Thread, x: Choice)
    requires th.close.Some? && CloseMove(s, th, x).Some?
    ensures var ch := CloseMove(s, th, x).value.ch; !ch.CountCreated? && !ch.NewForward?
  {}

  lemma HandlerAtCount(s: Sys, th: Thread, x: Choice, f: Fwd)
    requires th.main.Handler? && HandlerMove(s, th, x).Some?
    ensures var m := HandlerMove(s, th, x).value;
      && (AtCount(m.th, f) <==> (AtCount(th, f) && m.ch != CountCreated(f)) || (m.ch.NewForward? && m.ch.f == f))
      && (m.ch == CountCreated(f) ==> AtCount(th, f))
  {
    hide OpenMove;
    if th.main.pc.Open? && x.Opens? {
      OpenKeepsReq(s, th, x.o);
    }
  }

  lemma CleanAtEnd(s: Sys, th: Thread, f: Fwd)
    requires th.clean.Some? && CleanMove(s, th).Some?
    ensures var m := CleanMove(s, th).value;
      && (AtEnd(m.th, f) <==> (AtEnd(th, f) && m.ch != EndClean(f)) || m.ch == CountCleaned(f))
      && (m.ch == EndClean(f) ==> AtEnd(th, f))
      && (m.ch == CountCleaned(f) ==> th.clean == Some(CleanCall(f, KCount)))
  {}

  /** A cleanup is counted just before it is over. */
  lemma MoveAtEnd(s: Sys, th: Thread, x: Choice, f: Fwd)
    requires Plan(s, th, x).Some?
    ensures var m := Plan(s, th, x).value;
      && (AtEnd(m.th, f) <==> (AtEnd(th, f) && m.ch != EndClean(f)) || m.ch == CountCleaned(f))
      && (m.ch == EndClean(f) ==> AtEnd(th, f))
      && (m.ch == CountCleaned(f) ==> th.clean == Some(CleanCall(f, KCount)))
  {
    hide CleanMove, CloseMove, OpenMove;
    if th.clean.Some? {
      CleanAtEnd(s, th, f);
    } else if th.close.Some? {
      CloseChanges(s, th, x);
    } else if th.main.Handler? && th.main.pc.Open? && x.Opens? {
      OpenKeepsReq(s, th, x.o);
    }
  }

  lemma NewcomersCountNone(main: Main, f: Fwd)
    ensures main.Watcher? || main.Acceptor? || main.Canceller? || main.Closer? || (main.Handler? && main.pc.Begin?) ==>
      !AtCount(Thread(main, None, None), f)
    ensures !AtEnd(Thread(main, None, None), f)
  {}

  /** Which threads are at the two points after a step. */
  lemma StepPoints(s: Sys, a: Action, f: Fwd, t: Tid)
    requires Step(s, a).Some? && t in Step(s, a).value.threads
    ensures var s1, ch := Step(s, a).value, ChangeOf(s, a); var th := s1.threads[t];
      && (a.Go? && a.t == t ==>
            && t in s.threads
            && (AtCount(th, f) <==> (AtCount(s.threads[t], f) && ch != CountCreated(f)) || (ch.NewForward? && ch.f == f))
            && (AtEnd(th, f) <==> (AtEnd(s.threads[t], f) && ch != EndClean(f)) || ch == CountCleaned(f)))
      && (!(a.Go? && a.t == t) ==>
            if t in s.threads then th == s.threads[t] else !AtCount(th, f) && !AtEnd(th, f))
  {
    hide Plan, Step, Apply, ChangeOf, Applicable, AtCount, AtEnd;
    StepThreads(s, a);
    if a.Go? {
      MoveAtCount(s, s.threads[a.t], a.x, f);
      MoveAtEnd(s, s.threads[a.t], a.x, f);
    }
    NewcomersCountNone(Step(s, a).value.threads[t].main, f);
    if a.Arrive? {
      ArrivedBegins(s, a.main);
    }
  }

  lemma ArrivedBegins(s: Sys, main: Main)
    requires MayArrive(s, main)
    ensures main.Canceller? || main.Closer? || (main.Handler? && main.pc.Begin?)
  {}

  /** Who makes a change that concerns the counters. */
  lemma StepCounters(s: Sys, a: Action, f: Fwd)
    requires Step(s, a).Some?
    ensures var s1, ch := Step(s, a).value, ChangeOf(s, a);
      && (ch == CountCreated(f) ==> a.Go? && a.t in s.threads && AtCount(s.threads[a.t], f) && f in s.fwds)
      && (ch == CountCleaned(f) ==> a.Go? && a.t in s.threads && s.threads[a.t].clean == Some(CleanCall(f, KCount)) && f in s.fwds)
      && (ch == EndClean(f) ==> a.Go? && a.t in s.threads && AtEnd(s.threads[a.t], f))
      && (ch.NewForward? ==> a.Go? && a.t in s1.threads && AtCount(s1.threads[a.t], ch.f))
      && (ch == CountCleaned(f) ==> a.t in s1.threads && AtEnd(s1.threads[a.t], f))
      && s1.fwds.Keys == s.fwds.Keys + (if ch.NewForward? then {ch.f} else {})
      && s1.created == s.created + (if ch.CountCreated? then 1 else 0)
      && s1.cleaned == s.cleaned + (if ch.CountCleaned? then 1 else 0)
      && (ch.NewForward? ==> ch.f !in s.fwds)
  {
    hide Plan, Step, Apply, ChangeOf;
    if a.Go? {
      var m, _ := GoStep(s, a);
      var ch := m.ch;
      hide Applicable;
      StepThreads(s, a);
      ApplyCounts(s, a.t, ch);
      CountsKnown(s, ch);
      MoveAtCount(s, s.threads[a.t], a.x, f);
      MoveAtEnd(s, s.threads[a.t], a.x, f);
      if ch.NewForward? {
        MoveAtCount(s, s.threads[a.t], a.x, ch.f);
      }
    } else {
      OtherStep(s, a);
    }
  }

  lemma CountsKnown(s: Sys, ch: Change)
    requires Applicable(s, ch)
    ensures ch.CountCreated? || ch.CountCleaned? ==> ch.f in s.fwds
  {}

  lemma StepCountedAt(s: Sys, a: Action)
    requires SetupOwned(s) && CountedAt(s) && Step(s, a).Some?
    ensures CountedAt(Step(s, a).value)
  {
    hide Plan, Step, Apply, ChangeOf, Applicable, SetupOwned;
    var s1, ch := Step(s, a).value, ChangeOf(s, a);
    forall f <- s1.fwds
      ensures !s1.fwds[f].counted <==> exists t <- s1.threads :: AtCount(s1.threads[t], f)
    {
      StepFlagOf(s, a, f);
    }
  }

  lemma StepFlagOf(s: Sys, a: Action, f: Fwd)
    requires SetupOwned(s) && CountedAt(s) && Step(s, a).Some? && f in Step(s, a).value.fwds
    ensures var s1 := Step(s, a).value; !s1.fwds[f].counted <==> exists t <- s1.threads :: AtCount(s1.threads[t], f)
  {
    hide Plan, Step, Apply, ChangeOf, Applicable, SetupOwned, AtCount, AtEnd;
    var s1, ch := Step(s, a).value, ChangeOf(s, a);
    StepCounters(s, a, f);
    if f in s.fwds {
      StepFlags(s, a, f);
    } else {
      StepNewFlags(s, a, f);
    }
    StepKeepsThreads(s, a);
    if t :| t in s.threads && AtCount(s.threads[t], f) {
      StepPoints(s, a, f, t);
    }
    if t :| t in s1.threads && AtCount(s1.threads[t], f) {
      StepPoints(s, a, f, t);
      if ch == CountCreated(f) {
        OneCounts(s, a.t, t, f);
      }
    }
  }

  lemma StepKeepsThreads(s: Sys, a: Action)
    requires Step(s, a).Some?
    ensures s.threads.Keys <= Step(s, a).value.threads.Keys
  {
    hide Plan, Step, Apply, ChangeOf, Applicable;
    StepThreads(s, a);
  }

  lemma StepNewFlags(s: Sys, a: Action, f: Fwd)
    requires Step(s, a).Some? && f in Step(s, a).value.fwds && f !in s.fwds
    ensures var s1 := Step(s, a).value; !s1.fwds[f].counted && !s1.fwds[f].ended && s1.fwds[f].once.Fresh? && s1.fwds[f].starts == 0
  {
    hide Plan, Step, Apply, ChangeOf, Applicable;
    StepNew(s, a, f);
  }

  lemma OneCounts(s: Sys, t: Tid, u: Tid, f: Fwd)
    requires SetupOwned(s) && t in s.threads && u in s.threads && AtCount(s.threads[t], f) && AtCount(s.threads[u], f)
    ensures t == u
  {
    assert Early(s.threads[t]) == Some(f) && Early(s.threads[u]) == Some(f);
  }

  /** Only its own cleanup's thread is at the end of a forward. */
  lemma OneEnds(s: Sys, t: Tid, f: Fwd)
    requires CleanOwned(s) && t in s.threads
    requires AtEnd(s.threads[t], f) || s.threads[t].clean == Some(CleanCall(f, KCount))
    ensures f in s.fwds && s.fwds[f].once == Running(t)
  {
    assert Cleaning(s.threads[t]) == Some(f);
  }

  lemma StepEndOf(s: Sys, a: Action, f: Fwd)
    requires CleanOwned(s) && EndedAt(s) && Step(s, a).Some? && f in Step(s, a).value.fwds
    ensures var s1 := Step(s, a).value;
      s1.fwds[f].ended <==> s1.fwds[f].once.Done? || exists t <- s1.threads :: AtEnd(s1.threads[t], f)
  {
    hide Plan, Step, Apply, ChangeOf, Applicable, CleanOwned, AtCount, AtEnd;
    var s1, ch := Step(s, a).value, ChangeOf(s, a);
    StepCounters(s, a, f);
    StepFwdOnce(s, a, f);
    if f in s.fwds {
      StepFlags(s, a, f);
    } else {
      StepNewFlags(s, a, f);
    }
    StepKeepsThreads(s, a);
    if t :| t in s.threads && AtEnd(s.threads[t], f) {
      StepPoints(s, a, f, t);
    }
    if t :| t in s1.threads && AtEnd(s1.threads[t], f) {
      StepPoints(s, a, f, t);
      if t in s.threads && AtEnd(s.threads[t], f) {
        OneEnds(s, t, f);
      }
    }
  }

  lemma StepEndedAt(s: Sys, a: Action)
    requires CleanOwned(s) && EndedAt(s) && Step(s, a).Some?
    ensures EndedAt(Step(s, a).value)
  {
    hide Step, CleanOwned;
    var s1 := Step(s, a).value;
    forall f <- s1.fwds
      ensures s1.fwds[f].ended <==> s1.fwds[f].once.Done? || exists t <- s1.threads :: AtEnd(s1.threads[t], f)
    {
      StepEndOf(s, a, f);
    }
  }

  lemma StepStartsMatch(s: Sys, a: Action)
    requires CleanOwned(s) && StartsMatch(s) && Step(s, a).Some?
    ensures StartsMatch(Step(s, a).value)
  {
    hide Plan, Step, Apply, ChangeOf, Applicable;
    var s1, ch := Step(s, a).value, ChangeOf(s, a);
    forall f <- s1.fwds
      ensures s1.fwds[f].starts == if s1.fwds[f].once.Fresh? then 0 else 1
    {
      StepFwdOnce(s, a, f);
      StepCounters(s, a, f);
      if f in s.fwds {
        StepFlags(s, a, f);
        if ch == EndClean(f) {
          OneEnds(s, a.t, f);
        }
      } else {
        StepNewFlags(s, a, f);
      }
    }
  }

  /** A counter moves with its set. */
  lemma StepSets(s: Sys, a: Action)
    requires CleanOwned(s) && CountedAt(s) && EndedAt(s) && Step(s, a).Some?
    ensures var s1, ch := Step(s, a).value, ChangeOf(s, a);
      && Created(s1) == Created(s) + (if ch.CountCreated? then {ch.f} else {})
      && Ended(s1) == Ended(s) + (if ch.CountCleaned? then {ch.f} else {})
      && (ch.CountCreated? ==> ch.f !in Created(s)) && (ch.CountCleaned? ==> ch.f !in Ended(s))
  {
    hide Plan, Step, Apply, ChangeOf, Applicable, CleanOwned, AtCount, AtEnd;
    var s1, ch := Step(s, a).value, ChangeOf(s, a);
    if ch.CountCreated? {
      StepCounters(s, a, ch.f);
    }
    if ch.CountCleaned? {
      StepCounters(s, a, ch.f);
      NotEnded(s, a.t, ch.f);
    }
    forall f: Fwd
      ensures f in Created(s1) <==> f in Created(s) || ch == CountCreated(f)
      ensures f in Ended(s1) <==> f in Ended(s) || ch == CountCleaned(f)
    {
      StepCounters(s, a, f);
      if f in s.fwds {
        StepFlags(s, a, f);
      } else if f in s1.fwds {
        StepNewFlags(s, a, f);
      }
    }
  }

  lemma NotEnded(s: Sys, t: Tid, f: Fwd)
    requires CleanOwned(s) && EndedAt(s) && t in s.threads && s.threads[t].clean == Some(CleanCall(f, KCount))
    ensures f in s.fwds && !s.fwds[f].ended
  {
    OneEnds(s, t, f);
    if u :| u in s.threads && AtEnd(s.threads[u], f) {
      OneEnds(s, u, f);
    }
  }

  lemma StepCounted(s: Sys, a: Action)
    requires CleanOwned(s) && SetupOwned(s) && Counted(s) && Step(s, a).Some?
    ensures Counted(Step(s, a).value)
  {
    hide Plan, Step, Apply, ChangeOf, Applicable, Created, Ended, CountedAt, EndedAt, StartsMatch, CleanOwned, SetupOwned;
    StepSets(s, a);
    StepCountedAt(s, a);
    StepEndedAt(s, a);
    StepStartsMatch(s, a);
    StepCounters(s, a, 0);
  }

  // ----- all of it together -----

  ghost predicate Inv(s: Sys) {
    && Owned(s)
    && Refs(s) && SetupOver(s) && SetupOwned(s) && Kept(s)
    && HolderRefs(s) && HoldersInStep(s) && RoutesLead(s) && OnePerSlot(s.routes)
    && Counted(s)
  }

  lemma StepInv(s: Sys, a: Action)
    requires Inv(s) && Step(s, a).Some?
    ensures Inv(Step(s, a).value)
  {
    hide Plan, Step, Owned, BindOwned, CleanOwned, CloseOwned, TargetOwned, AllParked, Refs, SetupOver, SetupOwned, Kept,
         HolderRefs, HoldersInStep, RoutesLead, OnePerSlot, Counted;
    OwnedParts(s);
    StepOwned(s, a);
    StepRefs(s, a);
    StepSetupOver(s, a);
    StepSetupOwned(s, a);
    StepKept(s, a);
    StepHolderRefs(s, a);
    StepInStep(s, a);
    StepRoutesLead(s, a);
    StepOnePerSlot(s, a);
    StepCounted(s, a);
  }

  lemma OwnedParts(s: Sys)
    requires Owned(s)
    ensures AllParked(s) && BindOwned(s) && CleanOwned(s) && CloseOwned(s) && TargetOwned(s)
  {}

  lemma {:induction false} RunInv(run: seq<Action>)
    requires Exec(INIT, run).Some?
    ensures Inv(Exec(INIT, run).value)
    decreases |run|
  {
    hide Step, Plan;
    if run == [] {
      InitInv();
    } else {
      RunInv(run[..|run| - 1]);
      StepInv(Exec(INIT, run[..|run| - 1]).value, run[|run| - 1]);
    }
  }

  lemma InitInv()
    ensures Inv(INIT)
  {
    assert Created(INIT) == {} && Ended(INIT) == {};
  }

  lemma ReachableInv(s: Sys)
    requires Reachable(s)
    ensures Inv(s)
  {
    var run :| Exec(INIT, run) == Some(s);
    RunInv(run);
  }

  // ----- cleanup happens once, and the counters say how many are outstanding -----

  /** Across all its triggers a forward's cleanup begins at most once, and it is done only after beginning. */
  lemma CleanupAtMostOnce(s: Sys, f: Fwd)
    requires Reachable(s) && f in s.fwds
    ensures s.fwds[f].starts <= 1
    ensures s.fwds[f].once.Done? ==> s.fwds[f].starts == 1
    ensures s.fwds[f].starts == 0 <==> s.fwds[f].once.Fresh?
  {
    ReachableInv(s);
  }

  /** Counted by its handler, and its cleanup not counted yet. */
  ghost predicate Outstanding(s: Sys, f: Fwd) {
    && f in s.fwds && !s.fwds[f].once.Done?
    && forall t <- s.threads :: !AtCount(s.threads[t], f) && !AtEnd(s.threads[t], f)
  }

  ghost function AllOutstanding(s: Sys): set<Fwd> {
    set f | f in s.fwds && Outstanding(s, f)
  }

  /** A forward whose cleanup has begun was counted when it was made. */
  lemma CountedFirst(s: Sys, f: Fwd)
    requires Inv(s) && f in s.fwds && !s.fwds[f].once.Fresh?
    ensures s.fwds[f].counted
  {
    hide Owned, Refs, SetupOver, Kept, HolderRefs, HoldersInStep, RoutesLead, OnePerSlot, EndedAt, StartsMatch;
    if t :| t in s.threads && AtCount(s.threads[t], f) {
      CountingIsFresh(s, t, f);
    }
  }

  lemma CountingIsFresh(s: Sys, t: Tid, f: Fwd)
    requires SetupOwned(s) && t in s.threads && AtCount(s.threads[t], f)
    ensures f in s.fwds && s.fwds[f].once.Fresh?
  {
    assert Early(s.threads[t]) == Some(f);
  }

  /** The forwards in one counter and not in the other are those outstanding, and the second counter counts only some of the first. */
  lemma OutstandingFlags(s: Sys)
    requires Inv(s)
    ensures Ended(s) <= Created(s) && AllOutstanding(s) == Created(s) - Ended(s)
  {
    hide Refs, SetupOver, Kept, HolderRefs, HoldersInStep, RoutesLead, OnePerSlot, StartsMatch, BindOwned, CloseOwned, TargetOwned,
         AllParked, AtCount, AtEnd, SetupOwned;
    forall f <- s.fwds
      ensures s.fwds[f].ended ==> s.fwds[f].counted
      ensures Outstanding(s, f) <==> s.fwds[f].counted && !s.fwds[f].ended
    {
      if s.fwds[f].ended {
        if t :| t in s.threads && AtEnd(s.threads[t], f) {
          OneEnds(s, t, f);
        }
        CountedFirst(s, f);
      }
    }
  }

  /** forward_create_total minus forward_cleanup_total is always the number of forwards outstanding. */
  lemma CountersMatch(s: Sys)
    requires Reachable(s)
    ensures s.created - s.cleaned == |AllOutstanding(s)|
  {
    hide Owned, Refs, SetupOver, SetupOwned, Kept, HolderRefs, HoldersInStep, RoutesLead, OnePerSlot, CountedAt, EndedAt,
         StartsMatch, Outstanding;
    ReachableInv(s);
    OutstandingFlags(s);
    assert Created(s) == Ended(s) + AllOutstanding(s);
  }

  // ----- the listener maps whenever the bind lock is free -----

  /** The http and alias rows "no active backends" of a snapshot. */
  function EmptyRows(s: Sys): set<Key> {
    set k | k in s.routes && s.routes[k] in s.holders
            && (s.holders[s.routes[k]].conns == {} || s.holders[s.routes[k]].servers == {})
  }

  lemma RoutesWhenFree(s: Sys)
    requires Reachable(s) && s.bind.None?
    ensures forall k <- s.routes ::
              && s.routes[k] in s.holders
              && s.holders[s.routes[k]].key == k
              && s.holders[s.routes[k]].servers == s.holders[s.routes[k]].conns
              && s.holders[s.routes[k]].conns != {}
    ensures EmptyRows(s) == {}
  {
    hide Owned, Refs, SetupOver, SetupOwned, Kept, Counted;
    ReachableInv(s);
    assert SpotNow(s) == Quiet;
    forall k <- s.routes
      ensures && s.routes[k] in s.holders
              && s.holders[s.routes[k]].key == k
              && s.holders[s.routes[k]].servers == s.holders[s.routes[k]].conns
              && s.holders[s.routes[k]].conns != {}
    {
      assert InStep(s.holders[s.routes[k]], s.routes[k], Quiet);
    }
  }

  /** No two entries share host, path, user and password, although the key also has the scheme. */
  lemma DistinctAddresses(s: Sys, k1: Key, k2: Key)
    requires Reachable(s) && k1 in s.routes && k2 in s.routes && k1.slot == k2.slot
    ensures k1 == k2
  {
    ReachableInv(s);
  }
}
